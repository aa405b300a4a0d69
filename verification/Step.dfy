/**
 One step of the collection pipeline. Everything outside it (trust store, script engine, variable
 resolver, codec, authenticator, cookie jar, sender) is a world of arbitrary answers; the step itself
 is given twice, as functions on a record of the run and as a class that updates its fields.
 */
module CollectionStep {
  import opened Sorting
  import opened Text
  import opened Redirect

  // ---- what the pipeline is configured with ----

  datatype Ip = Ip(loopback: bool, unspecified: bool, id: int)

  /** What a host text is: the name localhost, an address, or some other name. */
  datatype HostForm = Localhost | Address(ip: Ip) | Named

  datatype Pipeline = Pipeline(ownPorts: set<int>, ownIPs: set<int>, hostForm: string -> HostForm,
                               scope: Option<Url -> bool>, trust: Option<string -> Option<bool>>,
                               hasEngine: bool, hasFlows: bool, hasAuth: bool, hasEncoder: bool)

  datatype Policy = Unset | Off | Warn | Block | OtherPolicy(text: string)

  datatype Source = FromUI | FromElsewhere

  /** A base-target pin after parsing; a blank one matches everything. */
  datatype Pin = Unpinned | Blank | Malformed | Pinned(host: string, port: string)

  datatype Listen = PreRequest | TestPhase

  datatype ScriptRef = ScriptRef(level: nat, listen: Listen, hash: string)

  datatype Settings = Settings(follow: bool, maxRedirects: int, rawHeaders: bool)

  datatype Input = Input(pre: seq<ScriptRef>, tests: seq<ScriptRef>, settings: Settings,
                         override: Policy, collectionPolicy: Policy, source: Source,
                         noScripts: bool, failOnQuarantine: bool, pin: Pin, parent: int)

  // ---- what the outside answers ----

  datatype ScriptError = NoScriptError | Unsupported | ScriptFailed

  /** How one script run ended, and whether it asked to skip the request. */
  datatype ScriptAnswer = ScriptAnswer(error: ScriptError, skip: bool)

  datatype Built = Built(verb: string, url: Url, headers: seq<RawHeader>, body: seq<char>, deferredAuth: bool)

  datatype ResolveAnswer = UnresolvedVariables | ResolveFailed | Resolved(built: Built)

  datatype EncodeAnswer = EncodeFailed | NotEncoded | Encoded(body: seq<char>)

  /** A request the authenticator wants sent; the flags say whether its URL and body can be used. */
  datatype AuthCall = AuthCall(dest: Url, validUrl: bool, bodyReadable: bool)

  datatype AuthResult = AuthUnsupported | AuthFailed | AuthDone(headers: seq<RawHeader>, url: Url)

  datatype SendResult = SendFailed | NoFlow | Got(flow: Flow)

  /** What one call of the sender does: the flows it reports while sending, then its result. */
  datatype SendAnswer = SendAnswer(reported: seq<Flow>, result: SendResult)

  datatype World = World(script: (Listen, nat) -> ScriptAnswer, resolve: ResolveAnswer, encode: EncodeAnswer,
                         cookie: nat -> string, authCalls: seq<AuthCall>, authResult: AuthResult,
                         send: nat -> SendAnswer, resolveRef: (Url, string) -> Option<Url>)

  // ---- the record of a run ----

  datatype Outcome = OutcomeSent | OutcomeSkipped | OutcomeBlocked | OutcomeError

  datatype Reason = NoReason | Unresolved | OutOfScope | TargetPin | IpGuard | OwnListener | Quarantined

  datatype Verdict = Cleared | PassWarned(reason: Reason) | Refused(reason: Reason)

  datatype Warning = SentAnyway(reason: Reason, host: string) | NotFollowed(reason: Reason,
        host: string) | AuthNotSupported

  datatype NoteReason = IsQuarantined | Disabled | NotTrusted | NoEngine | EndedUnsupported | EndedInError

  datatype Note = Note(ref: ScriptRef, reason: NoteReason)

  /** A flow-context row of a main request. */
  datatype Row = Row(flow: int, parent: int)

  datatype Event =
    | Ran(listen: Listen, index: nat, ref: ScriptRef)
    | Checked(dest: Url, pin: Pin, verdict: Verdict)
    | SentMain(request: Request)
    | SentAuth(url: Url)

  datatype Run = Run(trace: seq<Event>, outcome: Outcome, reason: Reason, warnings: seq<Warning>, notes: seq<Note>,
                     flowIDs: seq<int>, rows: seq<Row>, sends: nat)

  const START := Run([], OutcomeError, NoReason, [], [], [], [], 0)

  // ---- destinations ----

  function PortNumber(digits: string): int {
    if digits == "" then 0
    else PortNumber(digits[..|digits| - 1]) * 10 + (digits[|digits| - 1] as int - '0' as int)
  }

  function PortOf(u: Url): int {
    if u.port != "" then PortNumber(u.port) else if u.scheme == "https" then 443 else 80
  }

  predicate IsOwn(p: Pipeline, u: Url) {
    && PortOf(u) in p.ownPorts
    && match p.hostForm(u.hostname)
       case Localhost => true
       case Address(ip) => ip.loopback || ip.unspecified || ip.id in p.ownIPs
       case Named => false
  }

  predicate InScope(p: Pipeline, u: Url) {
    p.scope.None? || p.scope.value(u)
  }

  predicate PinMatches(pin: Pin, u: Url) {
    match pin
    case Unpinned => true
    case Blank => true
    case Malformed => false
    case Pinned(host, port) =>
      && EqualFold(host, u.hostname)
      && (port == "" || port == (if u.port != "" then u.port else if u.scheme == "https" then "443" else "80"))
  }

  /** The effective policy: an explicit override, else interactive sends warn and others block. */
  function ScopePolicy(x: Input): Policy {
    if x.override != Unset then x.override
    else if x.source == FromUI then (if x.collectionPolicy == Off then Off else Warn)
    else if x.collectionPolicy == Unset then Block
    else x.collectionPolicy
  }

  function CheckDest(p: Pipeline, u: Url, policy: Policy, pin: Pin): Verdict {
    if IsOwn(p, u) then Refused(OwnListener)
    else if policy == Off then Cleared
    else
      var reason := if pin != Unpinned &&
          !PinMatches(pin, u) then TargetPin else if !InScope(p, u) then OutOfScope else NoReason;
      if reason == NoReason then Cleared
      else if policy == Warn then PassWarned(reason)
      else Refused(reason)
  }

  function Warned(v: Verdict, u: Url): seq<Warning> {
    if v.PassWarned? then [SentAnyway(v.reason, u.hostname)] else []
  }

  function AfterCheck(p: Pipeline, r: Run, u: Url, policy: Policy, pin: Pin): Run {
    var v := CheckDest(p, u, policy, pin);
    r.(trace := r.trace + [Checked(u, pin, v)], warnings := r.warnings + Warned(v, u))
  }

  // ---- scripts ----

  predicate Trusted(p: Pipeline, x: Input, hash: string) {
    !x.noScripts && p.trust.Some? && p.trust.value(hash) == Some(true)
  }

  predicate QuarantineBlocks(p: Pipeline, x: Input) {
    x.failOnQuarantine && !x.noScripts && exists i ::
        0 <= i < |x.pre + x.tests| && !Trusted(p, x, (x.pre + x.tests)[i].hash)
  }

  function QuarantineNotes(p: Pipeline, x: Input, refs: seq<ScriptRef>): seq<Note> {
    if refs == [] then []
    else QuarantineNotes(p, x, refs[..|refs| - 1])
         + if Trusted(p, x, refs[|refs| - 1].hash) then [] else [Note(refs[|refs| - 1], IsQuarantined)]
  }

  datatype Scripts = Scripts(run: Run, ok: bool, skip: bool)

  /** The scripts of one phase from number k on. */
  function RunScripts(p: Pipeline, x: Input, w: World, listen: Listen, refs: seq<ScriptRef>, k: nat, r: Run): Scripts
    requires k <= |refs|
    decreases |refs| - k
  {
    if k == |refs| then Scripts(r, true, false)
    else
      var s := refs[k];
      if x.noScripts then RunScripts(p, x, w, listen, refs, k + 1, r.(notes := r.notes + [Note(s, Disabled)]))
      else if !Trusted(p, x, s.hash) then
        RunScripts(p, x, w, listen, refs, k + 1, r.(notes := r.notes + [Note(s, NotTrusted)]))
      else if !p.hasEngine then RunScripts(p, x, w, listen, refs, k + 1, r.(notes := r.notes + [Note(s, NoEngine)]))
      else
        var a := w.script(listen, k);
        var t := r.(trace := r.trace + [Ran(listen, k, s)]);
        if a.error == NoScriptError then
          if listen == PreRequest && a.skip then Scripts(t, true, true)
          else RunScripts(p, x, w, listen, refs, k + 1, t)
        else
          var n := t.(notes := t.notes + [Note(s, if a.error == Unsupported then EndedUnsupported else EndedInError)]);
          if listen == TestPhase then RunScripts(p, x, w, listen, refs, k + 1, n)
          else Scripts(n.(outcome := OutcomeError), false, false)
  }

  // ---- authentication requests ----

  function AuthRequest(p: Pipeline, w: World, policy: Policy, c: AuthCall, r: Run): Run {
    if !c.validUrl then r
    else
      var t := AfterCheck(p, r, c.dest, policy, Unpinned);
      if CheckDest(p, c.dest, policy, Unpinned).Refused? || !c.bodyReadable then t
      else t.(trace := t.trace + [SentAuth(c.dest)], sends := t.sends + 1)
  }

  function AuthRequests(p: Pipeline, w: World, policy: Policy, calls: seq<AuthCall>, r: Run): Run {
    if calls == [] then r
    else AuthRequest(p, w, policy, calls[|calls| - 1], AuthRequests(p, w, policy, calls[..|calls| - 1], r))
  }

  // ---- the request ----

  predicate HasCookie(hs: seq<RawHeader>) {
    exists i :: 0 <= i < |hs| && IsCookieName(hs[i].name)
  }

  predicate RepeatsName(hs: seq<RawHeader>) {
    exists i, j :: 0 <= i < j < |hs| && Lower(hs[i].name.spelling) == Lower(hs[j].name.spelling)
  }

  function HostOf(hs: seq<RawHeader>): string {
    if hs == [] then ""
    else if hs[|hs| - 1].name.kind == NameKind.Host then hs[|hs| - 1].value
    else HostOf(hs[..|hs| - 1])
  }

  function MapOf(hs: seq<RawHeader>): HeaderMap {
    if hs == [] then map[]
    else
      var m, h := MapOf(hs[..|hs| - 1]), hs[|hs| - 1];
      if h.name.kind == NameKind.Host then m
      else m[h.name := (if h.name in m then m[h.name] else []) + [h.value]]
  }

  /** The ordered raw form when asked for or when names repeat, else the map form. */
  function RequestFor(verb: string, url: Url, hs: seq<RawHeader>, body: seq<char>, forceRaw: bool): Request {
    if forceRaw || RepeatsName(hs) then Request(verb, url, "", None, hs, body)
    else Request(verb, url, HostOf(hs), Some(MapOf(hs)), [], body)
  }

  // ---- sending ----

  function ReportFlow(p: Pipeline, x: Input, f: Flow, r: Run): Run {
    if f.id == 0 then r
    else
      var parent := if r.flowIDs == [] then x.parent else r.flowIDs[|r.flowIDs| - 1];
      r.(flowIDs := r.flowIDs + [f.id], rows := if p.hasFlows then r.rows + [Row(f.id, parent)] else r.rows)
  }

  function ReportFlows(p: Pipeline, x: Input, fs: seq<Flow>, r: Run): Run {
    if fs == [] then r
    else ReportFlow(p, x, fs[|fs| - 1], ReportFlows(p, x, fs[..|fs| - 1], r))
  }

  /** One call of the sender with a main request. */
  function SendOnce(p: Pipeline, x: Input, w: World, req: Request, r: Run): Run {
    ReportFlows(p, x, w.send(r.sends).reported, r.(trace := r.trace + [SentMain(req)], sends := r.sends + 1))
  }

  function MaxRedirects(x: Input): (m: int)
    ensures m > 0
  {
    if x.settings.maxRedirects <= 0 then 10 else x.settings.maxRedirects
  }

  datatype Delivery = Delivery(run: Run, flow: Option<Flow>)

  /** One pass of the send loop: the flow it ends with, or the request it goes on with. */
  datatype Pass = Stop(run: Run, flow: Option<Flow>) | Continue(run: Run, next: Request)

  function SendPass(p: Pipeline, x: Input, w: World, policy: Policy, jarCookies: bool, req: Request, hop: nat,
                    r: Run): Pass {
    var a := w.send(r.sends).result;
    var t := SendOnce(p, x, w, req, r);
    if !a.Got? then Stop(t, None)
    else if !x.settings.follow || hop >= MaxRedirects(x) || a.flow.error != NoError then Stop(t, Some(a.flow))
    else
      match NextHop(w.resolveRef, req, a.flow)
      case None => Stop(t, Some(a.flow))
      case Some(n) =>
        var v := CheckDest(p, n.url, policy, x.pin);
        var c := AfterCheck(p, t, n.url, policy, x.pin);
        if v.Refused? then Stop(c.(warnings := c.warnings + [NotFollowed(v.reason, n.url.hostname)]), Some(a.flow))
        else Continue(c, if jarCookies then HopCookie(n, w.cookie(c.sends)) else n)
  }

  /** The send loop from hop on: send, and follow a redirect whose target passes the checks. */
  function Send(p: Pipeline, x: Input, w: World, policy: Policy, jarCookies: bool, req: Request, hop: nat,
                r: Run): Delivery
    requires hop <= MaxRedirects(x)
    decreases MaxRedirects(x) - hop
  {
    match SendPass(p, x, w, policy, jarCookies, req, hop, r)
    case Stop(t, flow) => Delivery(t, flow)
    case Continue(t, next) => Send(p, x, w, policy, jarCookies, next, hop + 1, t)
  }

  function Recorded(r: Run, f: Flow): Run {
    if r.flowIDs == [] && f.id != 0 then r.(flowIDs := [f.id]) else r
  }

  // ---- the whole step ----

  /** The request's own headers, or those with the jar's cookies when it sets none itself. */
  function WithJarCookies(w: World, b: Built): seq<RawHeader> {
    if !HasCookie(b.headers) && w.cookie(0) != "" then b.headers + [RawHeader(COOKIE, w.cookie(0))] else b.headers
  }

  /** What the authenticator leaves of the headers and the URL. */
  datatype Ready = NotReady(run: Run) | Ready(run: Run, headers: seq<RawHeader>, url: Url)

  function Authenticate(p: Pipeline, x: Input, w: World, b: Built, r: Run): Ready {
    if !p.hasAuth || !b.deferredAuth then Ready.Ready(r, WithJarCookies(w, b), b.url)
    else
      var t := AuthRequests(p, w, ScopePolicy(x), w.authCalls, r);
      match w.authResult
      case AuthFailed => NotReady(t.(outcome := OutcomeError))
      case AuthUnsupported => Ready.Ready(t.(warnings := t.warnings + [AuthNotSupported]), WithJarCookies(w, b), b.url)
      case AuthDone(hs, url) => Ready.Ready(t, hs, url)
  }

  /** Cookies, codec and authentication, then the check and the send loop. */
  function Dispatch(p: Pipeline, x: Input, w: World, b: Built, r: Run): Delivery {
    if p.hasEncoder && w.encode.EncodeFailed? then Delivery(r, None)
    else
      var body := if p.hasEncoder && w.encode.Encoded? then w.encode.body else b.body;
      match Authenticate(p, x, w, b, r)
      case NotReady(t) => Delivery(t, None)
      case Ready(t, hs, url) =>
        CheckAndSend(p, x, w, ScopePolicy(x), !HasCookie(b.headers),
                     RequestFor(b.verb, url, hs, body, x.settings.rawHeaders), t)
  }

  function CheckAndSend(p: Pipeline, x: Input, w: World, policy: Policy, jarCookies: bool, req: Request,
                        r: Run): Delivery {
    var v := CheckDest(p, req.url, policy, x.pin);
    var c := AfterCheck(p, r, req.url, policy, x.pin);
    if v.Refused? then Delivery(c.(outcome := OutcomeBlocked, reason := v.reason), None)
    else
      var d := Send(p, x, w, policy, jarCookies, req, 0, c);
      if d.flow.Some? then d.(run := Recorded(d.run, d.flow.value)) else d
  }

  function AfterResponse(p: Pipeline, x: Input, w: World, f: Flow, r: Run): Run {
    match f.error
    case GuardBlocked => r.(outcome := OutcomeBlocked, reason := IpGuard)
    case OtherError => r.(outcome := OutcomeError)
    case NoError => RunScripts(p, x, w, TestPhase, x.tests, 0, r.(outcome := OutcomeSent)).run
  }

  function Step(p: Pipeline, x: Input, w: World): Run {
    if QuarantineBlocks(p, x) then
      START.(outcome := OutcomeBlocked, reason := Quarantined, notes := QuarantineNotes(p, x, x.pre + x.tests))
    else
      var s := RunScripts(p, x, w, PreRequest, x.pre, 0, START);
      if !s.ok then s.run
      else if s.skip then s.run.(outcome := OutcomeSkipped)
      else
        match w.resolve
        case UnresolvedVariables => s.run.(outcome := OutcomeBlocked, reason := Unresolved)
        case ResolveFailed => s.run
        case Resolved(b) =>
          var d := Dispatch(p, x, w, b, s.run);
          if d.flow.None? then d.run else AfterResponse(p, x, w, d.flow.value, d.run)
  }

  /** The flow a finished run reports. */
  function FlowID(r: Run): int {
    if r.flowIDs == [] then 0 else r.flowIDs[|r.flowIDs| - 1]
  }

  // ---- the step as the program runs it ----

  class StepRun {
    const p: Pipeline
    const x: Input
    const w: World
    var trusted: map<string, bool>
    var outcome: Outcome
    var reason: Reason
    var warnings: seq<Warning>
    var notes: seq<Note>
    var flowIDs: seq<int>
    var rows: seq<Row>
    var jarCookies: bool
    var sends: nat
    ghost var trace: seq<Event>
    /** The hashes the trust store has been asked about. */
    ghost var asked: seq<string>

    constructor (p: Pipeline, x: Input, w: World)
      ensures this.p == p && this.x == x && this.w == w
      ensures Record() == START && trusted == map[] && asked == []
    {
      this.p, this.x, this.w := p, x, w;
      asked := [];
      trusted, outcome, reason, warnings, notes := map[], OutcomeError, NoReason, [], [];
      flowIDs, rows, jarCookies, sends, trace := [], [], false, 0, [];
    }

    ghost function Record(): Run
      reads this
    {
      Run(trace, outcome, reason, warnings, notes, flowIDs, rows, sends)
    }

    ghost predicate KnowsTrust(refs: seq<ScriptRef>)
      reads this
    {
      forall i :: 0 <= i < |refs| ==> refs[i].hash in trusted && trusted[refs[i].hash] == Trusted(p, x, refs[i].hash)
    }

    /** Asks the trust store once per script hash, and not at all when scripts are off. */
    method AskTrust(refs: seq<ScriptRef>) returns (quarantined: bool)
      requires trusted == map[] && asked == []
      modifies this`trusted, this`asked
      ensures KnowsTrust(refs)
      ensures quarantined <==> !x.noScripts && exists i :: 0 <= i < |refs| && !Trusted(p, x, refs[i].hash)
      ensures NoDuplicates(asked)
      ensures forall h :: h in asked <==> !x.noScripts && p.trust.Some? && exists i ::
                0 <= i < |refs| && refs[i].hash == h
    {
      quarantined := false;
      for i := 0 to |refs|
        invariant forall k :: 0 <= k < i ==> refs[k].hash in trusted
        invariant forall h :: h in trusted ==> trusted[h] == Trusted(p, x, h) && exists k ::
                    0 <= k < i && refs[k].hash == h
        invariant quarantined ==> !x.noScripts && exists k :: 0 <= k < i && !Trusted(p, x, refs[k].hash)
        invariant !x.noScripts && !quarantined ==> forall h :: h in trusted ==> trusted[h]
        invariant NoDuplicates(asked)
        invariant forall h :: h in asked <==> !x.noScripts && p.trust.Some? && h in trusted
      {
        var h := refs[i].hash;
        if h !in trusted {
          var ok := false;
          if !x.noScripts && p.trust.Some? {
            asked := asked + [h];
            ok := p.trust.value(h) == Some(true);
          }
          trusted := trusted[h := ok];
          if !ok && !x.noScripts {
            quarantined := true;
          }
        }
      }
    }

    method NoteQuarantined(refs: seq<ScriptRef>)
      requires KnowsTrust(refs)
      modifies this`notes
      ensures notes == old(notes) + QuarantineNotes(p, x, refs)
    {
      for i := 0 to |refs|
        invariant notes == old(notes) + QuarantineNotes(p, x, refs[..i])
      {
        assert refs[..i + 1][..i] == refs[..i];
        if !trusted[refs[i].hash] {
          notes := notes + [Note(refs[i], IsQuarantined)];
        }
      }
      assert refs[..|refs|] == refs;
    }

    method Gate() returns (ok: bool)
      requires trusted == map[] && asked == []
      modifies this
      ensures NoDuplicates(asked)
      ensures forall h :: h in asked <==> !x.noScripts && p.trust.Some? && exists i ::
                0 <= i < |x.pre + x.tests| && (x.pre + x.tests)[i].hash == h
      ensures ok == !QuarantineBlocks(p, x)
      ensures KnowsTrust(x.pre + x.tests)
      ensures Record() == if ok then old(Record())
                          else old(Record()).(outcome := OutcomeBlocked, reason := Quarantined,
                                              notes := old(notes) + QuarantineNotes(p, x, x.pre + x.tests))
    {
      var quarantined := AskTrust(x.pre + x.tests);
      if quarantined && x.failOnQuarantine {
        outcome, reason := OutcomeBlocked, Quarantined;
        NoteQuarantined(x.pre + x.tests);
        return false;
      }
      return true;
    }

    method RunPhase(listen: Listen, refs: seq<ScriptRef>) returns (ok: bool, skip: bool)
      requires KnowsTrust(refs)
      modifies this`trace, this`notes, this`outcome
      ensures var s := RunScripts(p, x, w, listen, refs, 0, old(Record()));
                Record() == s.run && ok == s.ok && skip == s.skip
    {
      var k := 0;
      while k < |refs|
        invariant k <= |refs| && KnowsTrust(refs)
        invariant RunScripts(p, x, w, listen, refs, k, Record()) == RunScripts(p, x, w, listen, refs, 0, old(Record()))
      {
        var s := refs[k];
        if x.noScripts {
          notes := notes + [Note(s, Disabled)];
        } else if !trusted[s.hash] {
          notes := notes + [Note(s, NotTrusted)];
        } else if !p.hasEngine {
          notes := notes + [Note(s, NoEngine)];
        } else {
          var a := w.script(listen, k);
          trace := trace + [Ran(listen, k, s)];
          if a.error == NoScriptError {
            if listen == PreRequest && a.skip {
              return true, true;
            }
          } else {
            notes := notes + [Note(s, if a.error == Unsupported then EndedUnsupported else EndedInError)];
            if listen == PreRequest {
              outcome := OutcomeError;
              return false, false;
            }
          }
        }
        k := k + 1;
      }
      return true, false;
    }

    method Check(u: Url, policy: Policy, pin: Pin) returns (v: Verdict)
      modifies this`trace, this`warnings
      ensures v == CheckDest(p, u, policy, pin)
      ensures Record() == AfterCheck(p, old(Record()), u, policy, pin)
    {
      v := Cleared;
      if IsOwn(p, u) {
        v := Refused(OwnListener);
      } else if policy != Off {
        var why := NoReason;
        if pin != Unpinned && !PinMatches(pin, u) {
          why := TargetPin;
        } else if !InScope(p, u) {
          why := OutOfScope;
        }
        if why != NoReason {
          if policy == Warn {
            warnings := warnings + [SentAnyway(why, u.hostname)];
            v := PassWarned(why);
          } else {
            v := Refused(why);
          }
        }
      }
      trace := trace + [Checked(u, pin, v)];
    }

    method DoAuthRequest(c: AuthCall, policy: Policy)
      modifies this`trace, this`warnings, this`sends
      ensures Record() == AuthRequest(p, w, policy, c, old(Record()))
    {
      if !c.validUrl {
        return;
      }
      var v := Check(c.dest, policy, Unpinned);
      if v.Refused? || !c.bodyReadable {
        return;
      }
      trace := trace + [SentAuth(c.dest)];
      sends := sends + 1;
    }

    /** The authenticator makes its calls, in any number, before it answers. */
    method AuthPhase(policy: Policy)
      modifies this`trace, this`warnings, this`sends
      ensures Record() == AuthRequests(p, w, policy, w.authCalls, old(Record()))
    {
      for i := 0 to |w.authCalls|
        invariant Record() == AuthRequests(p, w, policy, w.authCalls[..i], old(Record()))
      {
        assert w.authCalls[..i + 1][..i] == w.authCalls[..i];
        DoAuthRequest(w.authCalls[i], policy);
      }
      assert w.authCalls[..|w.authCalls|] == w.authCalls;
    }

    method OnFlow(f: Flow)
      modifies this`flowIDs, this`rows
      ensures Record() == ReportFlow(p, x, f, old(Record()))
    {
      if f.id == 0 {
        return;
      }
      var parent := x.parent;
      if |flowIDs| > 0 {
        parent := flowIDs[|flowIDs| - 1];
      }
      flowIDs := flowIDs + [f.id];
      if !p.hasFlows {
        return;
      }
      rows := rows + [Row(f.id, parent)];
    }

    /** The sender reports flows while it sends. */
    method CallSender(req: Request) returns (a: SendResult)
      modifies this`trace, this`sends, this`flowIDs, this`rows
      ensures a == w.send(old(sends)).result
      ensures Record() == SendOnce(p, x, w, req, old(Record()))
    {
      var answer := w.send(sends);
      trace := trace + [SentMain(req)];
      sends := sends + 1;
      ghost var r := Record();
      for i := 0 to |answer.reported|
        invariant Record() == ReportFlows(p, x, answer.reported[..i], r)
      {
        assert answer.reported[..i + 1][..i] == answer.reported[..i];
        OnFlow(answer.reported[i]);
      }
      assert answer.reported[..|answer.reported|] == answer.reported;
      a := answer.result;
    }

    /** One pass of the loop: send, then decide whether and how to go on. */
    method SendPassOf(req: Request, hop: nat, policy: Policy) returns (flow: Option<Flow>, next: Option<Request>)
      modifies this`trace, this`sends, this`flowIDs, this`rows, this`warnings
      ensures match SendPass(p, x, w, policy, jarCookies, req, hop, old(Record()))
              case Stop(t, f) => Record() == t && flow == f && next == None
              case Continue(t, n) => Record() == t && next == Some(n)
    {
      var a := CallSender(req);
      if !a.Got? {
        return None, None;
      }
      flow, next := Some(a.flow), None;
      var max := x.settings.maxRedirects;
      if max <= 0 {
        max := 10;
      }
      if !x.settings.follow || hop >= max || a.flow.error != NoError {
        return;
      }
      var hopRequest := NextHop(w.resolveRef, req, a.flow);
      if hopRequest.None? {
        return;
      }
      var n := hopRequest.value;
      var v := Check(n.url, policy, x.pin);
      if v.Refused? {
        warnings := warnings + [NotFollowed(v.reason, n.url.hostname)];
        return;
      }
      next := Some(if jarCookies then HopCookie(n, w.cookie(sends)) else n);
    }

    method SendLoop(first: Request, policy: Policy) returns (flow: Option<Flow>)
      modifies this`trace, this`sends, this`flowIDs, this`rows, this`warnings
      ensures var d := Send(p, x, w, policy, jarCookies, first, 0, old(Record()));
              && flow == d.flow
              && Record() == if flow.Some? then Recorded(d.run, flow.value) else d.run
    {
      flow := FollowHops(first, policy);
      if flow.Some? && |flowIDs| == 0 && flow.value.id != 0 {
        flowIDs := flowIDs + [flow.value.id];
      }
    }

    method FollowHops(first: Request, policy: Policy) returns (flow: Option<Flow>)
      modifies this`trace, this`sends, this`flowIDs, this`rows, this`warnings
      ensures Delivery(Record(), flow) == Send(p, x, w, policy, jarCookies, first, 0, old(Record()))
    {
      var next := Some(first);
      var hop := 0;
      ghost var d := Send(p, x, w, policy, jarCookies, first, 0, Record());
      flow := None;
      while next.Some?
        invariant 0 <= hop <= MaxRedirects(x) + 1
        invariant next.Some? ==>
                    hop <= MaxRedirects(x) && d == Send(p, x, w, policy, jarCookies, next.value, hop, Record())
        invariant next.None? ==> d == Delivery(Record(), flow)
        decreases MaxRedirects(x) + 1 - hop
      {
        flow, next := SendPassOf(next.value, hop, policy);
        hop := hop + 1;
      }
    }

    method AuthAndHeaders(b: Built) returns (ok: bool, hs: seq<RawHeader>, url: Url)
      modifies this`trace, this`warnings, this`sends, this`outcome, this`jarCookies
      ensures jarCookies == !HasCookie(b.headers)
      ensures match Authenticate(p, x, w, b, old(Record()))
              case NotReady(t) => Record() == t && !ok
              case Ready(t, h, u) => Record() == t && ok && hs == h && url == u
    {
      hs, url, ok := b.headers, b.url, true;
      jarCookies := false;
      if !HasCookie(hs) {
        jarCookies := true;
        if w.cookie(0) != "" {
          hs := hs + [RawHeader(COOKIE, w.cookie(0))];
        }
      }
      if p.hasAuth && b.deferredAuth {
        AuthPhase(ScopePolicy(x));
        match w.authResult {
          case AuthFailed =>
            outcome := OutcomeError;
            ok := false;
          case AuthUnsupported => warnings := warnings + [AuthNotSupported];
          case AuthDone(hs', url') => hs, url := hs', url';
        }
      }
    }

    method Deliver(b: Built) returns (flow: Option<Flow>)
      modifies this
      ensures trusted == old(trusted)
      ensures var d := Dispatch(p, x, w, b, old(Record())); Record() == d.run && flow == d.flow
    {
      var body := b.body;
      if p.hasEncoder {
        match w.encode {
          case EncodeFailed => return None;
          case NotEncoded =>
          case Encoded(e) => body := e;
        }
      }
      var ok, hs, url := AuthAndHeaders(b);
      if !ok {
        return None;
      }
      flow := CheckThenSend(RequestFor(b.verb, url, hs, body, x.settings.rawHeaders));
    }

    method CheckThenSend(req: Request) returns (flow: Option<Flow>)
      modifies this
      ensures trusted == old(trusted)
      ensures var d := CheckAndSend(p, x, w, ScopePolicy(x), old(jarCookies), req, old(Record()));
                Record() == d.run && flow == d.flow
    {
      var policy := ScopePolicy(x);
      var v := Check(req.url, policy, x.pin);
      if v.Refused? {
        outcome, reason := OutcomeBlocked, v.reason;
        return None;
      }
      flow := SendLoop(req, policy);
    }

    lemma {:induction false} KnownParts(a: seq<ScriptRef>, b: seq<ScriptRef>)
      requires KnowsTrust(a + b)
      ensures KnowsTrust(a) && KnowsTrust(b)
    {
      assert forall i :: 0 <= i < |a| ==> (a + b)[i] == a[i];
      assert forall i :: 0 <= i < |b| ==> (a + b)[|a| + i] == b[i];
    }

    method Execute()
      requires Record() == START && trusted == map[] && asked == []
      modifies this
      ensures Record() == Step(p, x, w)
    {
      var ok := Gate();
      if !ok {
        return;
      }
      KnownParts(x.pre, x.tests);
      var skip;
      ok, skip := RunPhase(PreRequest, x.pre);
      if !ok {
        return;
      }
      if skip {
        outcome := OutcomeSkipped;
        return;
      }
      match w.resolve {
        case UnresolvedVariables => outcome, reason := OutcomeBlocked, Unresolved;
        case ResolveFailed =>
        case Resolved(b) =>
          var flow := Deliver(b);
          if flow.Some? {
            outcome := OutcomeSent;
            if flow.value.error != NoError {
              outcome := OutcomeError;
              if flow.value.error == GuardBlocked {
                outcome, reason := OutcomeBlocked, IpGuard;
              }
              return;
            }
            ok, skip := RunPhase(TestPhase, x.tests);
          }
      }
    }
  }
}
