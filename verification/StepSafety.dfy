/**
 Whatever the scripts, the authenticator, the sender and the servers answer, every destination of a step
 is checked before anything is sent to it.
 */
module StepSafety {
  import opened Text
  import opened Redirect
  import opened CollectionStep

  // ---- destinations are checked before anything is sent to them ----

  ghost predicate ClearedJustBefore(p: Pipeline, policy: Policy, tr: seq<Event>, i: nat, u: Url, pin: Pin) {
    0 < i < |tr| && tr[i - 1] == Checked(u, pin, CheckDest(p, u, policy, pin)) && !CheckDest(p, u, policy, pin).Refused?
  }

  ghost predicate EventSafe(p: Pipeline, x: Input, r: Run, i: nat)
    requires i < |r.trace|
  {
    match r.trace[i]
    case Ran(_, _, _) => true
    case Checked(u, pin, v) => v == CheckDest(p, u, ScopePolicy(x), pin) &&
        (v.PassWarned? ==> SentAnyway(v.reason, u.hostname) in r.warnings)
    case SentMain(req) => ClearedJustBefore(p, ScopePolicy(x), r.trace, i, req.url, x.pin)
    case SentAuth(u) => ClearedJustBefore(p, ScopePolicy(x), r.trace, i, u, Unpinned)
  }

  ghost predicate Safe(p: Pipeline, x: Input, r: Run) {
    forall i :: 0 <= i < |r.trace| ==> EventSafe(p, x, r, i)
  }

  /** Appending an event that is safe where it stands, and warnings, keeps a run safe. */
  lemma {:induction false} SafeGrows(p: Pipeline, x: Input, r: Run, t: Run)
    requires Safe(p, x, r)
    requires |t.trace| == |r.trace| + 1 && t.trace[..|r.trace|] == r.trace && r.warnings <= t.warnings
    requires EventSafe(p, x, t, |r.trace|)
    ensures Safe(p, x, t)
  {
    forall i | 0 <= i < |t.trace| ensures EventSafe(p, x, t, i) {
      if i < |r.trace| {
        assert EventSafe(p, x, r, i) && t.trace[i] == r.trace[i];
        assert i > 0 ==> t.trace[i - 1] == r.trace[i - 1];
      }
    }
  }

  /** A step that adds no event keeps a run safe. */
  lemma {:induction false} SafeStays(p: Pipeline, x: Input, r: Run, t: Run)
    requires Safe(p, x, r) && t.trace == r.trace && r.warnings <= t.warnings
    ensures Safe(p, x, t)
  {
    forall i | 0 <= i < |t.trace| ensures EventSafe(p, x, t, i) {
      assert EventSafe(p, x, r, i);
    }
  }

  lemma {:induction false} SafeCheck(p: Pipeline, x: Input, r: Run, u: Url, pin: Pin)
    requires Safe(p, x, r)
    ensures Safe(p, x, AfterCheck(p, r, u, ScopePolicy(x), pin))
  {
    SafeGrows(p, x, r, AfterCheck(p, r, u, ScopePolicy(x), pin));
  }

  lemma {:induction false} SafeScripts(p: Pipeline, x: Input, w: World, listen: Listen, refs: seq<ScriptRef>, k: nat,
                                       r: Run)
    requires k <= |refs| && Safe(p, x, r)
    ensures Safe(p, x, RunScripts(p, x, w, listen, refs, k, r).run)
    decreases |refs| - k
  {
    if k < |refs| {
      var s := refs[k];
      if x.noScripts {
        SafeStays(p, x, r, r.(notes := r.notes + [Note(s, Disabled)]));
        SafeScripts(p, x, w, listen, refs, k + 1, r.(notes := r.notes + [Note(s, Disabled)]));
      } else if !Trusted(p, x, s.hash) {
        SafeStays(p, x, r, r.(notes := r.notes + [Note(s, NotTrusted)]));
        SafeScripts(p, x, w, listen, refs, k + 1, r.(notes := r.notes + [Note(s, NotTrusted)]));
      } else if !p.hasEngine {
        SafeStays(p, x, r, r.(notes := r.notes + [Note(s, NoEngine)]));
        SafeScripts(p, x, w, listen, refs, k + 1, r.(notes := r.notes + [Note(s, NoEngine)]));
      } else {
        var t := r.(trace := r.trace + [Ran(listen, k, s)]);
        SafeGrows(p, x, r, t);
        var a := w.script(listen, k);
        var n := t.(notes := t.notes + [Note(s, if a.error == Unsupported then EndedUnsupported else EndedInError)]);
        SafeStays(p, x, t, n);
        SafeStays(p, x, n, n.(outcome := OutcomeError));
        SafeScripts(p, x, w, listen, refs, k + 1, t);
        SafeScripts(p, x, w, listen, refs, k + 1, n);
      }
    }
  }

  lemma {:induction false} SafeAuth(p: Pipeline, x: Input, w: World, calls: seq<AuthCall>, r: Run)
    requires Safe(p, x, r)
    ensures Safe(p, x, AuthRequests(p, w, ScopePolicy(x), calls, r))
    decreases |calls|
  {
    if calls != [] {
      var c := calls[|calls| - 1];
      var before := AuthRequests(p, w, ScopePolicy(x), calls[..|calls| - 1], r);
      SafeAuth(p, x, w, calls[..|calls| - 1], r);
      var t := AfterCheck(p, before, c.dest, ScopePolicy(x), Unpinned);
      SafeCheck(p, x, before, c.dest, Unpinned);
      if c.validUrl && !CheckDest(p, c.dest, ScopePolicy(x), Unpinned).Refused? && c.bodyReadable {
        SafeGrows(p, x, t, t.(trace := t.trace + [SentAuth(c.dest)], sends := t.sends + 1));
      }
    }
  }

  lemma {:induction false} ReportsKeepTrace(p: Pipeline, x: Input, fs: seq<Flow>, r: Run)
    ensures ReportFlows(p, x, fs, r).trace == r.trace && ReportFlows(p, x, fs, r).warnings == r.warnings
    ensures ReportFlows(p, x, fs, r).sends == r.sends && ReportFlows(p, x, fs, r).outcome == r.outcome
    ensures ReportFlows(p, x, fs, r).reason == r.reason && ReportFlows(p, x, fs, r).notes == r.notes
    decreases |fs|
  {
    if fs != [] { ReportsKeepTrace(p, x, fs[..|fs| - 1], r); }
  }

  /** The last thing the run did was to clear the request's destination. */
  ghost predicate JustCleared(p: Pipeline, x: Input, r: Run, u: Url) {
    && |r.trace| > 0
    && r.trace[|r.trace| - 1] == Checked(u, x.pin, CheckDest(p, u, ScopePolicy(x), x.pin))
    && !CheckDest(p, u, ScopePolicy(x), x.pin).Refused?
  }

  lemma {:induction false} SafeSendOnce(p: Pipeline, x: Input, w: World, req: Request, r: Run)
    requires Safe(p, x, r) && JustCleared(p, x, r, req.url)
    ensures Safe(p, x, SendOnce(p, x, w, req, r))
    ensures SendOnce(p, x, w, req, r).trace == r.trace + [SentMain(req)]
  {
    var t := r.(trace := r.trace + [SentMain(req)], sends := r.sends + 1);
    SafeGrows(p, x, r, t);
    ReportsKeepTrace(p, x, w.send(r.sends).reported, t);
    SafeStays(p, x, t, SendOnce(p, x, w, req, r));
  }

  lemma {:induction false} NextUrl(w: World, req: Request, f: Flow, cookie: string)
    requires NextHop(w.resolveRef, req, f).Some?
    ensures HopCookie(NextHop(w.resolveRef, req, f).value, cookie).url == NextHop(w.resolveRef, req, f).value.url
  {}

  lemma {:induction false} SafePass(p: Pipeline, x: Input, w: World, jar: bool, req: Request, hop: nat, r: Run)
    requires Safe(p, x, r) && JustCleared(p, x, r, req.url)
    ensures match SendPass(p, x, w, ScopePolicy(x), jar, req, hop, r)
            case Stop(t, _) => Safe(p, x, t)
            case Continue(t, n) => Safe(p, x, t) && JustCleared(p, x, t, n.url)
  {
    SafeSendOnce(p, x, w, req, r);
    var t := SendOnce(p, x, w, req, r);
    var a := w.send(r.sends).result;
    if a.Got? && NextHop(w.resolveRef, req, a.flow).Some? {
      var n := NextHop(w.resolveRef, req, a.flow).value;
      var c := AfterCheck(p, t, n.url, ScopePolicy(x), x.pin);
      SafeCheck(p, x, t, n.url, x.pin);
      NextUrl(w, req, a.flow, w.cookie(c.sends));
      var v := CheckDest(p, n.url, ScopePolicy(x), x.pin);
      if v.Refused? {
        SafeStays(p, x, c, c.(warnings := c.warnings + [NotFollowed(v.reason, n.url.hostname)]));
      }
    }
  }

  lemma {:induction false} SafeSend(p: Pipeline, x: Input, w: World, jar: bool, req: Request, hop: nat, r: Run)
    requires hop <= MaxRedirects(x) && Safe(p, x, r) && JustCleared(p, x, r, req.url)
    ensures Safe(p, x, Send(p, x, w, ScopePolicy(x), jar, req, hop, r).run)
    decreases MaxRedirects(x) - hop
  {
    SafePass(p, x, w, jar, req, hop, r);
    match SendPass(p, x, w, ScopePolicy(x), jar, req, hop, r)
    case Stop(_, _) =>
    case Continue(t, n) => SafeSend(p, x, w, jar, n, hop + 1, t);
  }

  lemma {:induction false} SafeCheckAndSend(p: Pipeline, x: Input, w: World, jar: bool, req: Request, r: Run)
    requires Safe(p, x, r)
    ensures Safe(p, x, CheckAndSend(p, x, w, ScopePolicy(x), jar, req, r).run)
  {
    var c := AfterCheck(p, r, req.url, ScopePolicy(x), x.pin);
    var v := CheckDest(p, req.url, ScopePolicy(x), x.pin);
    SafeCheck(p, x, r, req.url, x.pin);
    if v.Refused? {
      SafeStays(p, x, c, c.(outcome := OutcomeBlocked, reason := v.reason));
    } else {
      SafeSend(p, x, w, jar, req, 0, c);
      var d := Send(p, x, w, ScopePolicy(x), jar, req, 0, c);
      if d.flow.Some? { SafeStays(p, x, d.run, Recorded(d.run, d.flow.value)); }
    }
  }

  lemma {:induction false} SafeDispatch(p: Pipeline, x: Input, w: World, b: Built, r: Run)
    requires Safe(p, x, r)
    ensures Safe(p, x, Dispatch(p, x, w, b, r).run)
  {
    SafeAuth(p, x, w, w.authCalls, r);
    var t := AuthRequests(p, w, ScopePolicy(x), w.authCalls, r);
    SafeStays(p, x, t, t.(outcome := OutcomeError));
    SafeStays(p, x, t, t.(warnings := t.warnings + [AuthNotSupported]));
    var body := if p.hasEncoder && w.encode.Encoded? then w.encode.body else b.body;
    match Authenticate(p, x, w, b, r)
    case NotReady(_) =>
    case Ready(u, hs, url) =>
      SafeCheckAndSend(p, x, w, !HasCookie(b.headers), RequestFor(b.verb, url, hs, body, x.settings.rawHeaders), u);
  }

  /** In every run of the step, each call of the sender comes right after a check of that same
      destination that let it pass, and every destination let pass with a warning has its warning. */
  lemma {:induction false} StepIsSafe(p: Pipeline, x: Input, w: World)
    ensures Safe(p, x, Step(p, x, w))
  {
    assert Safe(p, x, START);
    var s := RunScripts(p, x, w, PreRequest, x.pre, 0, START);
    SafeScripts(p, x, w, PreRequest, x.pre, 0, START);
    SafeStays(p, x, s.run, s.run.(outcome := OutcomeSkipped));
    SafeStays(p, x, s.run, s.run.(outcome := OutcomeBlocked, reason := Unresolved));
    if !QuarantineBlocks(p, x) && s.ok && !s.skip && w.resolve.Resolved? {
      SafeDispatch(p, x, w, w.resolve.built, s.run);
      var d := Dispatch(p, x, w, w.resolve.built, s.run);
      SafeStays(p, x, d.run, d.run.(outcome := OutcomeBlocked, reason := IpGuard));
      SafeStays(p, x, d.run, d.run.(outcome := OutcomeError));
      SafeStays(p, x, d.run, d.run.(outcome := OutcomeSent));
      SafeScripts(p, x, w, TestPhase, x.tests, 0, d.run.(outcome := OutcomeSent));
    }
  }

  /** What a check that does not refuse says about the destination. */
  lemma {:induction false} ClearedMeans(p: Pipeline, u: Url, policy: Policy, pin: Pin)
    ensures !CheckDest(p, u, policy, pin).Refused? <==>
            !IsOwn(p, u) && (policy == Off || policy == Warn || (PinMatches(pin, u) && InScope(p, u)))
    ensures CheckDest(p, u, policy, pin).PassWarned? <==>
            !IsOwn(p, u) && policy == Warn && !(PinMatches(pin, u) && InScope(p, u))
  {}

  // ---- the policy a run has, and the port a URL names ----

  /** What is off scope or off the pin is not sent to: nothing overrides the collection's policy or the override
      is itself neither off nor warn, and the collection's is neither and the run is not from the UI. */
  predicate Blocks(x: Input) {
    match x.override
    case Off => false
    case Warn => false
    case Unset => x.source != FromUI && x.collectionPolicy != Off && x.collectionPolicy != Warn
    case _ => true
  }

  /** It is sent to with a warning. */
  predicate Warns(x: Input) {
    match x.override
    case Warn => true
    case Unset => if x.source == FromUI then x.collectionPolicy != Off else x.collectionPolicy == Warn
    case _ => false
  }

  lemma {:induction false} PolicyExactly(x: Input)
    ensures Blocks(x) <==> ScopePolicy(x) != Off && ScopePolicy(x) != Warn
    ensures Warns(x) <==> ScopePolicy(x) == Warn
  {}

  /** The URL names the port, or names none and has it by its scheme. */
  predicate AtPort(u: Url, n: nat) {
    if u.port == "" then n == (if u.scheme == "https" then 443 else 80) else u.port == Itoa(n)
  }

  predicate LocalHost(p: Pipeline, hostname: string) {
    match p.hostForm(hostname)
    case Localhost => true
    case Address(ip) => ip.loopback || ip.unspecified || ip.id in p.ownIPs
    case Named => false
  }

  lemma {:induction false} PortNumberReadsBack(n: nat)
    ensures PortNumber(Itoa(n)) == n
  {
    var s := Itoa(n);
    if n < 10 {
      assert s[..0] == [] && PortNumber(s) == PortNumber(s[..0]) * 10 + n;
    } else {
      PortNumberReadsBack(n / 10);
      assert s[..|s| - 1] == Itoa(n / 10);
      DigitIs(n % 10);
    }
  }

  lemma {:induction false} DigitIs(d: nat)
    requires d < 10
    ensures "0123456789"[d] as int - '0' as int == d
  {}

  lemma {:induction false} PortIs(u: Url, n: nat)
    requires AtPort(u, n)
    ensures PortOf(u) == n
  {
    PortNumberReadsBack(n);
  }

  /** A destination that passes is at no own port of a local host, whatever the policy. */
  lemma {:induction false} OwnExactly(p: Pipeline, u: Url, n: nat)
    requires AtPort(u, n)
    ensures IsOwn(p, u) <==> n in p.ownPorts && LocalHost(p, u.hostname)
  {
    PortIs(u, n);
  }

  /** A pin is met by a URL with its host, but for case, at its port, if it has one. */
  lemma {:induction false} PinExactly(host: string, port: string, u: Url, n: nat)
    requires AtPort(u, n)
    ensures PinMatches(Pinned(host, port), u) <==> EqualFold(host, u.hostname) && (port == "" || port == Itoa(n))
  {
    if u.port == "" {
      assert Itoa(44) == "44" by { assert Itoa(4) == "4"; }
      assert Itoa(443) == "443" && Itoa(80) == "80" by { assert Itoa(8) == "8"; }
    }
  }

  /** For all scripts, responses and redirects: whatever is sent to is never one of the tool's own
      listeners; unless the policy is off or warn it is in scope and, for main requests, on the pin;
      under warn a destination that is not leaves a warning naming its host. */
  lemma {:induction false} EverySendIsAllowed(p: Pipeline, x: Input, w: World, i: nat, u: Url, pin: Pin)
    requires i < |Step(p, x, w).trace|
    requires match Step(p, x, w).trace[i]
             case SentMain(req) => u == req.url && pin == x.pin
             case SentAuth(d) => u == d && pin == Unpinned
             case _ => false
    ensures !IsOwn(p, u)
    ensures forall n :: n in p.ownPorts && n >= 0 && AtPort(u, n) ==> !LocalHost(p, u.hostname)
    ensures Blocks(x) ==> (p.scope.None? || p.scope.value(u)) && PinMatches(pin, u)
    ensures Warns(x) && !((p.scope.None? || p.scope.value(u)) && PinMatches(pin, u)) ==>
              SentAnyway(if PinMatches(pin, u) then OutOfScope else TargetPin, u.hostname) in Step(p, x, w).warnings
  {
    StepIsSafe(p, x, w);
    var r := Step(p, x, w);
    assert EventSafe(p, x, r, i);
    assert EventSafe(p, x, r, i - 1);
    ClearedMeans(p, u, ScopePolicy(x), pin);
    PolicyExactly(x);
    forall n: nat | n in p.ownPorts && AtPort(u, n)
      ensures !LocalHost(p, u.hostname)
    {
      OwnExactly(p, u, n);
    }
  }
}
