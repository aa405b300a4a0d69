/**
 Following a redirect by hand (section 15.4 of RFC 9110): the request the next hop gets, the cookie
 header that is put on it, and what any chain of hops has kept of the first request.
 */
module Redirect {
  import opened Text

  /** The canonical names the program asks about; every other name is Other. */
  datatype NameKind =
    | Host | ContentLength | ContentType | TransferEncoding
    | Authorization | ProxyAuthorization | CookieName | Other

  /** A header name as written, with the canonical name it is a case variant of. */
  datatype HeaderName = HeaderName(kind: NameKind, spelling: string)

  const COOKIE := HeaderName(CookieName, "Cookie")

  datatype RawHeader = RawHeader(name: HeaderName, value: string)

  type HeaderMap = map<HeaderName, seq<string>>

  /** headers is absent when the request uses the ordered raw form. */
  datatype Request = Request(verb: string, url: Url, host: string, headers: Option<HeaderMap>,
                             raw: seq<RawHeader>, body: seq<char>)

  datatype FlowError = NoError | GuardBlocked | OtherError

  /** A recorded exchange; location is its Location header, empty when there is none. */
  datatype Flow = Flow(id: int, status: int, error: FlowError, location: string)

  // ---- one hop ----

  predicate IsRedirect(status: int) {
    status == 301 || status == 302 || status == 303 || status == 307 || status == 308
  }

  predicate DropsBody(status: int, verb: string) {
    var m := if verb == "" then "GET" else verb;
    (status == 303 && m != "HEAD") || ((status == 301 || status == 302) && m == "POST")
  }

  predicate IsContentHeader(k: HeaderName) {
    k.kind == ContentLength || k.kind == ContentType || k.kind == TransferEncoding
  }

  predicate IsCredential(k: HeaderName) {
    k.kind == Authorization || k.kind == CookieName || k.kind == ProxyAuthorization
  }

  predicate CrossHost(a: Url, b: Url) {
    !EqualFold(a.host, b.host)
  }

  /** The header names a hop does not pass on. */
  predicate Skips(dropBody: bool, cross: bool, name: HeaderName) {
    name.kind == Host || (dropBody && IsContentHeader(name)) || (cross && IsCredential(name))
  }

  function KeepHeaders(h: HeaderMap, dropBody: bool, cross: bool): HeaderMap {
    map k | k in h && !Skips(dropBody, cross, k) :: h[k]
  }

  /** The headers, in order, whose names pass. */
  function Select(raw: seq<RawHeader>, pass: HeaderName -> bool): seq<RawHeader> {
    if raw == [] then []
    else (if pass(raw[0].name) then [raw[0]] else []) + Select(raw[1..], pass)
  }

  function KeepRaw(raw: seq<RawHeader>, dropBody: bool, cross: bool): seq<RawHeader> {
    Select(raw, k => !Skips(dropBody, cross, k))
  }

  /** Where a response redirects to: resolve stands for the library's reference resolution. */
  function Target(resolve: (Url, string) -> Option<Url>, r: Request, f: Flow): Option<Url> {
    if !IsRedirect(f.status) then None
    else
      if f.location == "" then None
      else
        match resolve(r.url, f.location)
        case None => None
        case Some(t) => if (t.scheme != "http" && t.scheme != "https") || t.host == "" then None else Some(t)
  }

  function NextHop(resolve: (Url, string) -> Option<Url>, r: Request, f: Flow): Option<Request> {
    match Target(resolve, r, f)
    case None => None
    case Some(t) =>
      var dropBody, cross := DropsBody(f.status, r.verb), CrossHost(r.url, t);
      Some(Request(
             if dropBody then "GET" else r.verb, t, "",
             if r.headers.None? then None else Some(KeepHeaders(r.headers.value, dropBody, cross)),
             KeepRaw(r.raw, dropBody, cross),
             if dropBody then [] else r.body))
  }

  // ---- the cookie header of a hop ----

  predicate IsCookieName(name: HeaderName) {
    name.kind == CookieName
  }

  function WithoutCookies(raw: seq<RawHeader>): seq<RawHeader> {
    Select(raw, k => !IsCookieName(k))
  }

  /** r with its cookie header replaced by c, or removed when c is empty. */
  function HopCookie(r: Request, c: string): Request {
    var kept := WithoutCookies(r.raw);
    if r.headers.None? then
      if c == "" then r.(raw := kept)
      else if r.raw != [] then r.(raw := kept + [RawHeader(COOKIE, c)])
      else r.(headers := Some(map[COOKIE := [c]]))
    else
      var h := map k | k in r.headers.value && !IsCookieName(k) :: r.headers.value[k];
      r.(headers := Some(if c == "" then h else h[COOKIE := [c]]), raw := kept)
  }

  // ---- chains of hops ----

  /** One followed redirect: the response, and the cookie header asked of the jar, if it is the jar's. */
  datatype Hop = Hop(flow: Flow, cookie: Option<string>)

  function Follow(resolve: (Url, string) -> Option<Url>, r: Request, hop: Hop): Option<Request> {
    match NextHop(resolve, r, hop.flow)
    case None => None
    case Some(n) => Some(if hop.cookie.Some? then HopCookie(n, hop.cookie.value) else n)
  }

  ghost predicate IsChain(resolve: (Url, string) -> Option<Url>, rs: seq<Request>, hops: seq<Hop>) {
    && |rs| == |hops| + 1
    && forall i :: 0 <= i < |hops| ==> Follow(resolve, rs[i], hops[i]) == Some(rs[i + 1])
  }

  /** What hop i of a chain does not pass on. */
  predicate HopSkips(rs: seq<Request>, hops: seq<Hop>, i: nat, name: HeaderName)
    requires i < |hops| && i + 1 < |rs|
  {
    Skips(DropsBody(hops[i].flow.status, rs[i].verb), CrossHost(rs[i].url, rs[i + 1].url), name)
  }

  /** Skipped by one of the first n hops. */
  predicate SkippedBy(rs: seq<Request>, hops: seq<Hop>, n: nat, name: HeaderName)
    requires n <= |hops| && |rs| == |hops| + 1
  {
    exists i :: 0 <= i < n && HopSkips(rs, hops, i, name)
  }

  function HeadersOf(r: Request): HeaderMap {
    if r.headers.None? then map[] else r.headers.value
  }

  /** The headers other than cookies, in both forms. */
  function PlainHeaders(r: Request): HeaderMap {
    map k | k in HeadersOf(r) && !IsCookieName(k) :: HeadersOf(r)[k]
  }

  function Unskipped(rs: seq<Request>, hops: seq<Hop>, n: nat, raw: seq<RawHeader>): seq<RawHeader>
    requires n <= |hops| && |rs| == |hops| + 1
  {
    Select(raw, k => !SkippedBy(rs, hops, n, k))
  }

  lemma {:induction false} SelectConcat(a: seq<RawHeader>, b: seq<RawHeader>, pass: HeaderName -> bool)
    ensures Select(a + b, pass) == Select(a, pass) + Select(b, pass)
    decreases |a|
  {
    if a == [] {
      assert a + b == b;
    } else {
      assert (a + b)[1..] == a[1..] + b;
      SelectConcat(a[1..], b, pass);
    }
  }

  /** Selecting twice is selecting by both conditions. */
  lemma {:induction false} SelectTwice(raw: seq<RawHeader>, p: HeaderName -> bool, q: HeaderName -> bool,
                                       both: HeaderName -> bool)
    requires forall k :: both(k) == (p(k) && q(k))
    ensures Select(Select(raw, p), q) == Select(raw, both)
    decreases |raw|
  {
    if raw != [] {
      SelectTwice(raw[1..], p, q, both);
      var first := if p(raw[0].name) then [raw[0]] else [];
      SelectConcat(first, Select(raw[1..], p), q);
      assert first != [] ==> first[1..] == [];
    }
  }

  lemma {:induction false} SelectAll(raw: seq<RawHeader>, p: HeaderName -> bool)
    requires forall i :: 0 <= i < |raw| ==> p(raw[i].name)
    ensures Select(raw, p) == raw
    decreases |raw|
  {
    if raw != [] { SelectAll(raw[1..], p); }
  }

  lemma {:induction false} SelectMembers(raw: seq<RawHeader>, p: HeaderName -> bool, h: RawHeader)
    ensures h in Select(raw, p) <==> h in raw && p(h.name)
    decreases |raw|
  {
    if raw != [] {
      SelectMembers(raw[1..], p, h);
      assert raw == [raw[0]] + raw[1..];
    }
  }

  /** Setting the cookie header of a hop touches nothing else. */
  lemma {:induction false} HopCookieIsPlain(r: Request, c: string)
    ensures var n := HopCookie(r, c);
            && PlainHeaders(n) == PlainHeaders(r)
            && WithoutCookies(n.raw) == WithoutCookies(r.raw)
            && n.verb == r.verb && n.body == r.body && n.url == r.url
  {
    HopCookieRaw(r, c);
    HopCookieMap(r, c);
  }

  /** A request in the ordered form stays in it, unless it has no headers at all and is given a cookie. */
  lemma {:induction false} HopCookieForm(r: Request, c: string)
    ensures var n := HopCookie(r, c);
            n.host == r.host && (n.headers.None? <==> r.headers.None? && (c == "" || r.raw != []))
  {}

  lemma {:induction false} HopCookieRaw(r: Request, c: string)
    ensures WithoutCookies(HopCookie(r, c).raw) == WithoutCookies(r.raw)
  {
    var plain := (k: HeaderName) => !IsCookieName(k);
    SelectTwice(r.raw, plain, plain, plain);
    SelectConcat(Select(r.raw, plain), [RawHeader(COOKIE, c)], plain);
    PlainIs(r.raw, plain);
    PlainIs(HopCookie(r, c).raw, plain);
    PlainIs([RawHeader(COOKIE, c)], plain);
    assert [RawHeader(COOKIE, c)][1..] == [];
  }

  /** Selecting depends only on which names pass. */
  lemma {:induction false} SelectSame(raw: seq<RawHeader>, p: HeaderName -> bool, q: HeaderName -> bool)
    requires forall i :: 0 <= i < |raw| ==> p(raw[i].name) == q(raw[i].name)
    ensures Select(raw, p) == Select(raw, q)
    decreases |raw|
  {
    if raw != [] { SelectSame(raw[1..], p, q); }
  }

  lemma {:induction false} PlainIs(raw: seq<RawHeader>, plain: HeaderName -> bool)
    requires forall k :: plain(k) == !IsCookieName(k)
    ensures WithoutCookies(raw) == Select(raw, plain)
  {
    SelectSame(raw, k => !IsCookieName(k), plain);
  }

  lemma {:induction false} HopCookieMap(r: Request, c: string)
    ensures PlainHeaders(HopCookie(r, c)) == PlainHeaders(r)
  {}

  lemma {:induction false} SkippedByNext(rs: seq<Request>, hops: seq<Hop>, n: nat, name: HeaderName)
    requires n < |hops| && |rs| == |hops| + 1
    ensures SkippedBy(rs, hops, n + 1, name) <==> SkippedBy(rs, hops, n, name) || HopSkips(rs, hops, n, name)
  {}

  /** Along any chain the headers other than cookies are the first request's less those some hop skipped. */
  lemma {:induction false} ChainSkips(resolve: (Url, string) -> Option<Url>, rs: seq<Request>, hops: seq<Hop>, n: nat)
    requires IsChain(resolve, rs, hops) && n <= |hops|
    ensures PlainHeaders(rs[n]) == map k | k in PlainHeaders(rs[0]) && !SkippedBy(rs, hops, n, k) ::
              PlainHeaders(rs[0])[k]
    ensures WithoutCookies(rs[n].raw) == Unskipped(rs, hops, n, WithoutCookies(rs[0].raw))
    decreases n
  {
    if n == 0 {
      SelectAll(WithoutCookies(rs[0].raw), k => !SkippedBy(rs, hops, 0, k));
    } else {
      ChainSkips(resolve, rs, hops, n - 1);
      HopHeaders(resolve, rs, hops, n - 1);
      forall k: HeaderName ensures SkippedBy(rs, hops, n, k) <==>
          SkippedBy(rs, hops, n - 1, k) || HopSkips(rs, hops, n - 1, k) {
        SkippedByNext(rs, hops, n - 1, k);
      }
      SelectTwice(WithoutCookies(rs[0].raw), k => !SkippedBy(rs, hops, n - 1, k), k => !HopSkips(rs, hops, n - 1, k),
                  k => !SkippedBy(rs, hops, n, k));
    }
  }

  lemma {:induction false} HopHeaders(resolve: (Url, string) -> Option<Url>, rs: seq<Request>, hops: seq<Hop>, n: nat)
    requires IsChain(resolve, rs, hops) && n < |hops|
    ensures PlainHeaders(rs[n + 1]) == map k | k in PlainHeaders(rs[n]) && !HopSkips(rs, hops, n, k) ::
              PlainHeaders(rs[n])[k]
    ensures WithoutCookies(rs[n + 1].raw) == Select(WithoutCookies(rs[n].raw), k => !HopSkips(rs, hops, n, k))
  {
    var r, hop := rs[n], hops[n];
    assert Follow(resolve, r, hop) == Some(rs[n + 1]);
    var next := NextHop(resolve, r, hop.flow).value;
    if hop.cookie.Some? { HopCookieIsPlain(next, hop.cookie.value); }
    KeepThenPlain(r.raw, DropsBody(hop.flow.status, r.verb), CrossHost(r.url, next.url),
                  k => !HopSkips(rs, hops, n, k));
  }

  lemma {:induction false} KeepThenPlain(raw: seq<RawHeader>, dropBody: bool, cross: bool, keep: HeaderName -> bool)
    requires forall k :: keep(k) == !Skips(dropBody, cross, k)
    ensures WithoutCookies(KeepRaw(raw, dropBody, cross)) == Select(WithoutCookies(raw), keep)
  {
    var plain := (k: HeaderName) => !IsCookieName(k);
    var both := (k: HeaderName) => plain(k) && keep(k);
    SelectSame(raw, k => !Skips(dropBody, cross, k), keep);
    PlainIs(raw, plain);
    PlainIs(Select(raw, keep), plain);
    SelectTwice(raw, keep, plain, both);
    SelectTwice(raw, plain, keep, both);
  }

  /** A request that has a header of this name, in either form, whatever the case it is written in. */
  predicate Carries(r: Request, kind: NameKind) {
    (exists k :: k in HeadersOf(r) && k.kind == kind) || (exists i :: 0 <= i < |r.raw| && r.raw[i].name.kind == kind)
  }

  /** A name skipped by one hop is carried by no later request of the chain. */
  lemma {:induction false} SkippedForGood(resolve: (Url, string) -> Option<Url>, rs: seq<Request>, hops: seq<Hop>,
                                          i: nat, n: nat, kind: NameKind)
    requires IsChain(resolve, rs, hops) && i < n <= |hops| && kind != CookieName
    requires forall k: HeaderName :: k.kind == kind ==> HopSkips(rs, hops, i, k)
    ensures !Carries(rs[n], kind)
  {
    ChainSkips(resolve, rs, hops, n);
    forall k: HeaderName ensures k.kind == kind ==> SkippedBy(rs, hops, n, k) {
      assert k.kind == kind ==> HopSkips(rs, hops, i, k);
    }
    assert forall k :: k in HeadersOf(rs[n]) ==> IsCookieName(k) || k in PlainHeaders(rs[n]);
    forall j | 0 <= j < |rs[n].raw| ensures rs[n].raw[j].name.kind != kind {
      var h := rs[n].raw[j];
      SelectMembers(rs[n].raw, k => !IsCookieName(k), h);
      SelectMembers(WithoutCookies(rs[0].raw), k => !SkippedBy(rs, hops, n, k), h);
    }
  }

  /** After the first hop to another host no request carries credentials, even back on the first host. */
  lemma {:induction false} NoCredentialsAfterCrossHost(resolve: (Url, string) -> Option<Url>, rs: seq<Request>,
                                                       hops: seq<Hop>, i: nat, n: nat)
    requires IsChain(resolve, rs, hops) && i < n <= |hops| && CrossHost(rs[i].url, rs[i + 1].url)
    ensures !Carries(rs[n], Authorization) && !Carries(rs[n], ProxyAuthorization)
  {
    SkippedForGood(resolve, rs, hops, i, n, Authorization);
    SkippedForGood(resolve, rs, hops, i, n, ProxyAuthorization);
  }

  // ---- cookies along a chain ----

  /** A hop that sets no cookie header passes on only what it was given, and no cookies to another host. */
  lemma {:induction false} PlainHopCarries(resolve: (Url, string) -> Option<Url>, r: Request, f: Flow)
    requires NextHop(resolve, r, f).Some?
    ensures var n := NextHop(resolve, r, f).value;
            Carries(n, CookieName) ==> Carries(r, CookieName) && !CrossHost(r.url, n.url)
  {
    var n := NextHop(resolve, r, f).value;
    var dropBody, cross := DropsBody(f.status, r.verb), CrossHost(r.url, n.url);
    forall i | 0 <= i < |n.raw| && n.raw[i].name.kind == CookieName
      ensures !cross && exists j :: 0 <= j < |r.raw| && r.raw[j].name.kind == CookieName
    {
      SelectMembers(r.raw, k => !Skips(dropBody, cross, k), n.raw[i]);
    }
  }

  /** Without a jar, no request after the first hop to another host carries a cookie. */
  lemma {:induction false} OwnCookiesStayBehind(resolve: (Url, string) -> Option<Url>, rs: seq<Request>,
                                                hops: seq<Hop>, i: nat, n: nat)
    requires IsChain(resolve, rs, hops) && i < n <= |hops| && CrossHost(rs[i].url, rs[i + 1].url)
    requires forall k :: 0 <= k < n ==> hops[k].cookie.None?
    ensures !Carries(rs[n], CookieName)
    decreases n
  {
    assert Follow(resolve, rs[n - 1], hops[n - 1]) == Some(rs[n]);
    PlainHopCarries(resolve, rs[n - 1], hops[n - 1].flow);
    if n > i + 1 {
      OwnCookiesStayBehind(resolve, rs, hops, i, n - 1);
    }
  }

  /** The request's one cookie header is c, in the form it has its headers in; it has none if c is empty. */
  ghost predicate CookieIs(r: Request, c: string) {
    if c == "" then !Carries(r, CookieName)
    else if r.headers.Some? then
      && (forall k :: k in r.headers.value && IsCookieName(k) <==> k == COOKIE)
      && r.headers.value[COOKIE] == [c] && forall j :: 0 <= j < |r.raw| ==> !IsCookieName(r.raw[j].name)
    else
      r.raw != [] && r.raw[|r.raw| - 1] == RawHeader(COOKIE, c) && forall j :: 0 <= j < |r.raw| - 1 ==>
          !IsCookieName(r.raw[j].name)
  }

  lemma {:induction false} KeptAreNoCookies(raw: seq<RawHeader>)
    ensures forall j :: 0 <= j < |WithoutCookies(raw)| ==> !IsCookieName(WithoutCookies(raw)[j].name)
  {
    forall j | 0 <= j < |WithoutCookies(raw)|
      ensures !IsCookieName(WithoutCookies(raw)[j].name)
    {
      SelectMembers(raw, k => !IsCookieName(k), WithoutCookies(raw)[j]);
    }
  }

  lemma {:induction false} HopCookieIs(r: Request, c: string)
    ensures CookieIs(HopCookie(r, c), c)
  {
    KeptAreNoCookies(r.raw);
  }

  /** With a jar, every request after the first carries exactly the jar's answer for it. */
  lemma {:induction false} JarCookieOnly(resolve: (Url, string) -> Option<Url>, rs: seq<Request>, hops: seq<Hop>,
                                         n: nat)
    requires IsChain(resolve, rs, hops) && n < |hops| && hops[n].cookie.Some?
    ensures CookieIs(rs[n + 1], hops[n].cookie.value)
  {
    assert Follow(resolve, rs[n], hops[n]) == Some(rs[n + 1]);
    HopCookieIs(NextHop(resolve, rs[n], hops[n].flow).value, hops[n].cookie.value);
  }

  /** One of the first n responses is a 303 to anything but HEAD, or a 301 or 302 to POST. */
  predicate DroppedBy(hops: seq<Hop>, n: nat, verb: string)
    requires n <= |hops|
  {
    exists i :: 0 <= i < n && var status := hops[i].flow.status;
                ((status == 303 && verb != "HEAD") || ((status == 301 || status == 302) && verb == "POST"))
  }

  lemma {:induction false} DroppedByNext(hops: seq<Hop>, n: nat, verb: string)
    requires n < |hops|
    ensures DroppedBy(hops, n + 1, verb) <==> DroppedBy(hops, n, verb) || DropsBody(hops[n].flow.status, verb)
  {}

  /** Method and body are the first request's until such a response, and (GET, empty) from then on. */
  lemma {:induction false} ChainMethodAndBody(resolve: (Url, string) -> Option<Url>, rs: seq<Request>, hops: seq<Hop>,
                                              n: nat)
    requires IsChain(resolve, rs, hops) && n <= |hops|
    ensures (rs[n].verb, rs[n].body) == if DroppedBy(hops, n, rs[0].verb) then ("GET", []) else (rs[0].verb, rs[0].body)
    decreases n
  {
    if n > 0 {
      ChainMethodAndBody(resolve, rs, hops, n - 1);
      assert Follow(resolve, rs[n - 1], hops[n - 1]) == Some(rs[n]);
      var next := NextHop(resolve, rs[n - 1], hops[n - 1].flow).value;
      if hops[n - 1].cookie.Some? { HopCookieIsPlain(next, hops[n - 1].cookie.value); }
      DroppedByNext(hops, n - 1, rs[0].verb);
    }
  }

  /** What the first n hops take away: Host, headers that describe a body once it is dropped, and credentials
      once a hop has gone to another host. */
  predicate Withheld(rs: seq<Request>, hops: seq<Hop>, n: nat, kind: NameKind)
    requires n <= |hops| && |rs| == |hops| + 1
  {
    match kind
    case Host => n > 0
    case ContentLength => DroppedBy(hops, n, rs[0].verb)
    case ContentType => DroppedBy(hops, n, rs[0].verb)
    case TransferEncoding => DroppedBy(hops, n, rs[0].verb)
    case Authorization => exists i :: 0 <= i < n && !EqualFold(rs[i].url.host, rs[i + 1].url.host)
    case ProxyAuthorization => exists i :: 0 <= i < n && !EqualFold(rs[i].url.host, rs[i + 1].url.host)
    case _ => false
  }

  lemma {:induction false} SkippedExactly(resolve: (Url, string) -> Option<Url>, rs: seq<Request>, hops: seq<Hop>,
                                          n: nat, k: HeaderName)
    requires IsChain(resolve, rs, hops) && n <= |hops| && k.kind != CookieName
    ensures SkippedBy(rs, hops, n, k) <==> Withheld(rs, hops, n, k.kind)
    decreases n
  {
    if n > 0 {
      SkippedExactly(resolve, rs, hops, n - 1, k);
      SkippedByNext(rs, hops, n - 1, k);
      ChainMethodAndBody(resolve, rs, hops, n - 1);
      DroppedByNext(hops, n - 1, rs[0].verb);
    }
  }

  /**
   Along any chain the headers other than cookies are the first request's, in the map form and in the
   ordered raw form alike, less exactly what has been withheld.
   */
  lemma {:induction false} ChainHeaders(resolve: (Url, string) -> Option<Url>, rs: seq<Request>, hops: seq<Hop>, n: nat)
    requires IsChain(resolve, rs, hops) && n <= |hops|
    ensures PlainHeaders(rs[n]) == map k | k in PlainHeaders(rs[0]) && !Withheld(rs, hops, n, k.kind) ::
              PlainHeaders(rs[0])[k]
    ensures WithoutCookies(rs[n].raw) ==
            Select(WithoutCookies(rs[0].raw), (k: HeaderName) => !Withheld(rs, hops, n, k.kind))
  {
    ChainSkips(resolve, rs, hops, n);
    forall k: HeaderName | k.kind != CookieName
      ensures SkippedBy(rs, hops, n, k) <==> Withheld(rs, hops, n, k.kind)
    {
      SkippedExactly(resolve, rs, hops, n, k);
    }
    KeptAreNoCookies(rs[0].raw);
    SelectSame(WithoutCookies(rs[0].raw), k => !SkippedBy(rs, hops, n, k),
               (k: HeaderName) => !Withheld(rs, hops, n, k.kind));
  }

  /** Once the body is dropped no later request describes one. */
  lemma {:induction false} NoContentHeadersAfterDrop(resolve: (Url, string) -> Option<Url>, rs: seq<Request>,
                                                     hops: seq<Hop>, n: nat)
    requires IsChain(resolve, rs, hops) && n <= |hops| && DroppedBy(hops, n, rs[0].verb)
    ensures !Carries(rs[n], ContentLength) && !Carries(rs[n], ContentType) && !Carries(rs[n], TransferEncoding)
  {
    var i := FirstDrop(hops, n, rs[0].verb);
    ChainMethodAndBody(resolve, rs, hops, i);
    SkippedForGood(resolve, rs, hops, i, n, ContentLength);
    SkippedForGood(resolve, rs, hops, i, n, ContentType);
    SkippedForGood(resolve, rs, hops, i, n, TransferEncoding);
  }

  lemma {:induction false} FirstDrop(hops: seq<Hop>, n: nat, verb: string) returns (i: nat)
    requires n <= |hops| && DroppedBy(hops, n, verb)
    ensures i < n && DropsBody(hops[i].flow.status, verb) && !DroppedBy(hops, i, verb)
    decreases n
  {
    if DroppedBy(hops, n - 1, verb) {
      i := FirstDrop(hops, n - 1, verb);
    } else {
      i := n - 1;
    }
  }

  // ---- against the sender's own redirect handling ----

  predicate Downgrade(a: Url, b: Url) {
    EqualFold(a.scheme, "https") && EqualFold(b.scheme, "http")
  }

  /** The follow-up the sender builds when it follows a redirect itself. */
  function SenderNextHop(resolve: (Url, string) -> Option<Url>, r: Request, f: Flow): Option<Request> {
    match Target(resolve, r, f)
    case None => None
    case Some(t) =>
      var dropBody := DropsBody(f.status, r.verb);
      var cross := CrossHost(r.url, t) || Downgrade(r.url, t);
      Some(Request(
             if dropBody then "GET" else r.verb, t, "",
             Some(KeepHeaders(HeadersOf(r), dropBody, cross)),
             KeepRaw(r.raw, dropBody, cross),
             if dropBody then [] else r.body))
  }

  /** The same request, an absent header map counting as an empty one. */
  predicate SameRequest(a: Request, b: Request) {
    a.(headers := Some(HeadersOf(a))) == b.(headers := Some(HeadersOf(b)))
  }

  predicate HasCredential(r: Request) {
    (exists k :: k in HeadersOf(r) && IsCredential(k)) || (exists i :: 0 <= i < |r.raw| && IsCredential(r.raw[i].name))
  }

  /** Keeping as across hosts keeps everything kept within one, less the credentials. */
  lemma {:induction false} SelectFewer(raw: seq<RawHeader>, p: HeaderName -> bool, q: HeaderName -> bool)
    requires forall k :: p(k) ==> q(k)
    ensures |Select(raw, p)| <= |Select(raw, q)|
    ensures Select(raw, p) == Select(raw, q) <==> forall i :: 0 <= i < |raw| ==> p(raw[i].name) == q(raw[i].name)
    ensures Select(raw, p) != Select(raw, q) ==> |Select(raw, p)| < |Select(raw, q)|
    decreases |raw|
  {
    if raw != [] {
      SelectFewer(raw[1..], p, q);
      assert forall i :: 0 < i < |raw| ==> raw[i] == raw[1..][i - 1];
    }
  }

  lemma {:induction false} CredentialsDiffer(dropBody: bool, k: HeaderName)
    ensures Skips(dropBody, true, k) == Skips(dropBody, false, k) <==> !IsCredential(k)
  {
  }

  /**
   The step follows redirects by the sender's rules with one exception, which is exact: on a hop from
   https to http of the same host the sender strips credentials and the step passes them on.
   */
  lemma {:induction false} AgreesWithSender(resolve: (Url, string) -> Option<Url>, r: Request, f: Flow)
    requires NextHop(resolve, r, f).Some?
    ensures SenderNextHop(resolve, r, f).Some?
    ensures var t := NextHop(resolve, r, f).value.url;
            SameRequest(NextHop(resolve, r, f).value, SenderNextHop(resolve, r, f).value) <==>
            !(EqualFold(r.url.scheme, "https") && EqualFold(t.scheme, "http") && EqualFold(r.url.host, t.host)
              && HasCredential(r))
  {
    var n, m := NextHop(resolve, r, f).value, SenderNextHop(resolve, r, f).value;
    var dropBody, h := DropsBody(f.status, r.verb), HeadersOf(r);
    if Downgrade(r.url, n.url) && !CrossHost(r.url, n.url) {
      assert HeadersOf(n) == KeepHeaders(h, dropBody, false) && HeadersOf(m) == KeepHeaders(h, dropBody, true);
      KeptMapsDiffer(h, dropBody);
      SelectFewer(r.raw, k => !Skips(dropBody, true, k), k => !Skips(dropBody, false, k));
      forall i | 0 <= i < |r.raw|
        ensures var name := r.raw[i].name;
                Skips(dropBody, true, name) == Skips(dropBody, false, name) <==> !IsCredential(name)
      {
        CredentialsDiffer(dropBody, r.raw[i].name);
      }
    } else {
      assert HeadersOf(n) == HeadersOf(m);
    }
  }

  lemma {:induction false} KeptMapsDiffer(h: HeaderMap, dropBody: bool)
    ensures KeepHeaders(h, dropBody, false) == KeepHeaders(h, dropBody, true) <==> forall k :: k in h ==>
              !IsCredential(k)
  {
    forall k: HeaderName ensures Skips(dropBody, true, k) == Skips(dropBody, false, k) <==> !IsCredential(k) {
      CredentialsDiffer(dropBody, k);
    }
    var a, b := KeepHeaders(h, dropBody, false), KeepHeaders(h, dropBody, true);
    assert a == b ==> forall k :: k in h ==> (k in a <==> k in b);
  }

  /**
   From https to http of one host with Authorization, in the map form: the step passes it on and the
   sender does not.
   */
  lemma {:induction false} DowngradeKeepsCredentials(secret: string)
    ensures var a := Url("https", "h", "h", "", "/", "");
            var b := Url("http", "h", "h", "", "/", "");
            var r := Request("GET", a, "", Some(map[HeaderName(Authorization, "Authorization") := [secret]]), [], []);
            var f := Flow(1, 302, NoError, "http://h/");
            var resolve := (u: Url, location: string) => Some(b);
            && NextHop(resolve, r, f).Some? && SenderNextHop(resolve, r, f).Some?
            && HasCredential(NextHop(resolve, r, f).value) && !HasCredential(SenderNextHop(resolve, r, f).value)
  {
    var a := Url("https", "h", "h", "", "/", "");
    var b := Url("http", "h", "h", "", "/", "");
    var name := HeaderName(Authorization, "Authorization");
    var r := Request("GET", a, "", Some(map[name := [secret]]), [], []);
    var f := Flow(1, 302, NoError, "http://h/");
    var resolve := (u: Url, location: string) => Some(b);
    assert Target(resolve, r, f) == Some(b);
    assert !CrossHost(a, b) && Downgrade(a, b);
    assert name in HeadersOf(NextHop(resolve, r, f).value);
  }
}
