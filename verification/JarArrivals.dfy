/**
 The jar told from the responses alone: what a Set-Cookie header says, which of them decides what is held
 under a key, and exactly which cookies go out with a request.
 */
module CookieJarArrivals {
  import opened Sorting
  import opened Text
  import opened CookieJar
  import opened CookieJarTheorems

  /** One Set-Cookie header, with the URL that sent it and the time it came. */
  datatype Arrival = Arrival(url: Url, cookie: SetCookie, at: int)

  // ---- what a Set-Cookie header says ----

  /** The directory of a path: all before its last slash, and the root for one that has no other or is not rooted. */
  ghost predicate IsDirectory(path: string, dir: string) {
    if HasPrefix(path, "/") && '/' in path[1..] then
      0 < |dir| < |path| && path[..|dir|] == dir && path[|dir|] == '/' && '/' !in path[|dir| + 1..]
    else dir == "/"
  }

  /** The cookie is for the host alone if the header names no domain, or another than the address the host is; else it
      is for the domain, which is the host or a name it ends with. A dot before the domain does not count. */
  ghost predicate SaysDomain(isIP: string -> bool, host: string, attr: string, c: Attributes) {
    var d := Lower(if HasPrefix(attr, ".") then attr[1..] else attr);
    if d == "" || (isIP(host) && d != host) then c.hostOnly && c.domain == host
    else !c.hostOnly && c.domain == d && Covered(host, d)
  }

  ghost predicate SaysPath(path: string, attr: string, c: Attributes) {
    if HasPrefix(attr, "/") then c.path == attr else IsDirectory(path, c.path)
  }

  /** The end of a cookie: so many seconds after it came, as far as 64 bits of nanoseconds go, or the date given. */
  ghost predicate SaysEnd(sc: SetCookie, at: int, c: Attributes) {
    var length := sc.maxAge * 1_000_000_000;
    if sc.maxAge > 0 then
      && c.expires.Some?
      && (sc.maxAge <= 9223372036 ==> c.expires.value == at + length)
      && (c.expires.value - at - length) % 0x1_0000_0000_0000_0000 == 0
      && -0x8000_0000_0000_0000 <= c.expires.value - at < 0x8000_0000_0000_0000
    else c.expires == sc.expires
  }

  /** The arrival is accepted, and c is the cookie it tells of. */
  ghost predicate Says(isIP: string -> bool, a: Arrival, c: Attributes) {
    var sc := a.cookie;
    && sc.name != "" && c.name == sc.name && c.value == sc.value && c.secure == sc.secure && c.httpOnly == sc.httpOnly
    && SaysDomain(isIP, Lower(a.url.hostname), sc.domain, c)
    && SaysPath(a.url.path, sc.path, c)
    && SaysEnd(sc, a.at, c)
  }

  lemma {:induction false} LastIndexIsLast(s: string, c: char)
    ensures LastIndexOf(s, c) >= 0 ==> c !in s[LastIndexOf(s, c) + 1..]
    ensures LastIndexOf(s, c) < 0 ==> c !in s
    decreases |s|
  {
    if s != "" && s[|s| - 1] != c {
      var front := s[..|s| - 1];
      LastIndexIsLast(front, c);
      assert s == front + [s[|s| - 1]];
      var i := LastIndexOf(front, c);
      assert s[i + 1..] == front[i + 1..] + [s[|s| - 1]];
    }
  }

  lemma {:induction false} DefaultPathIs(path: string, dir: string)
    ensures IsDirectory(path, dir) <==> dir == DefaultPath(path)
  {
    if HasPrefix(path, "/") {
      var i := LastIndexOf(path, '/');
      LastIndexIsLast(path, '/');
      assert path[0] == '/' && path == [path[0]] + path[1..];
      assert i > 0 ==> path[1..][i - 1] == '/';
      if '/' in path[1..] {
        var k :| 0 <= k < |path[1..]| && path[1..][k] == '/';
        assert path[k + 1] == '/' && i >= k + 1;
        OneLastSlash(path, i, dir);
      }
    }
  }

  lemma {:induction false} OneLastSlash(path: string, i: nat, dir: string)
    requires 0 < i < |path| && path[i] == '/' && '/' !in path[i + 1..]
    ensures 0 < |dir| < |path| && path[..|dir|] == dir && path[|dir|] == '/' && '/' !in path[|dir| + 1..] <==>
            dir == path[..i]
  {
    if 0 < |dir| < i && path[..|dir|] == dir {
      assert path[|dir| + 1..][i - |dir| - 1] == '/';
    } else if i < |dir| < |path| && path[..|dir|] == dir {
      assert path[i + 1..][|dir| - i - 1] == path[|dir|];
    }
  }

  lemma {:induction false} WrapIs(x: int, y: int)
    requires (y - x) % 0x1_0000_0000_0000_0000 == 0 && -0x8000_0000_0000_0000 <= y < 0x8000_0000_0000_0000
    ensures WrapInt64(x) == y
  {
    var k := (y - x) / 0x1_0000_0000_0000_0000;
    assert x + 0x8000_0000_0000_0000 == (y + 0x8000_0000_0000_0000) - k * 0x1_0000_0000_0000_0000;
  }

  lemma {:induction false} SaysEndExactly(sc: SetCookie, at: int, c: Attributes)
    ensures SaysEnd(sc, at, c) <==> c.expires == ExpiryOf(sc, at)
  {
    if sc.maxAge > 0 {
      WrapIsClose(sc.maxAge * SECOND);
      if SaysEnd(sc, at, c) {
        WrapIs(sc.maxAge * SECOND, c.expires.value - at);
      }
    }
  }

  lemma {:induction false} WrapIsClose(x: int)
    ensures (WrapInt64(x) - x) % 0x1_0000_0000_0000_0000 == 0
    ensures -0x8000_0000_0000_0000 <= x < 0x8000_0000_0000_0000 ==> WrapInt64(x) == x
  {
    var k := (x + 0x8000_0000_0000_0000) / 0x1_0000_0000_0000_0000;
    assert WrapInt64(x) - x == -k * 0x1_0000_0000_0000_0000;
    assert (-k * 0x1_0000_0000_0000_0000) % 0x1_0000_0000_0000_0000 == 0;
  }

  /** What is said of a cookie is what is filed. */
  lemma {:induction false} SaysExactly(isIP: string -> bool, a: Arrival, c: Attributes)
    ensures Says(isIP, a, c) <==>
            var owner := OwnerOf(isIP, Lower(a.url.hostname), a.cookie.domain);
            a.cookie.name != "" && owner.Owned? && c == Arrived(a.url, a.cookie, owner, a.at)
  {
    SaysEndExactly(a.cookie, a.at, c);
    DefaultPathIs(a.url.path, c.path);
  }

  // ---- histories as arrivals ----

  function Arrivals(r: Response): (q: seq<Arrival>)
    ensures |q| == |r.cookies| && forall i :: 0 <= i < |q| ==> q[i] == Arrival(r.url, r.cookies[i], r.at)
  {
    seq(|r.cookies|, i requires 0 <= i < |r.cookies| => Arrival(r.url, r.cookies[i], r.at))
  }

  function AllArrivals(history: seq<Response>): seq<Arrival> {
    if history == [] then [] else AllArrivals(history[..|history| - 1]) + Arrivals(history[|history| - 1])
  }

  function Take(isIP: string -> bool, s: State, q: seq<Arrival>): State {
    if q == [] then s
    else
      var a := q[|q| - 1];
      StoreOne(isIP, Take(isIP, s, q[..|q| - 1]), a.url, a.cookie, a.at)
  }

  lemma {:induction false} TakeThen(isIP: string -> bool, s: State, p: seq<Arrival>, q: seq<Arrival>)
    ensures Take(isIP, s, p + q) == Take(isIP, Take(isIP, s, p), q)
    decreases |q|
  {
    if q == [] {
      assert p + q == p;
    } else {
      assert (p + q)[..|p + q| - 1] == p + q[..|q| - 1];
      TakeThen(isIP, s, p, q[..|q| - 1]);
    }
  }

  lemma {:induction false} StoreIsTake(isIP: string -> bool, s: State, r: Response)
    ensures StoreAll(isIP, s, r.url, r.cookies, r.at) == Take(isIP, s, Arrivals(r))
    decreases |r.cookies|
  {
    if r.cookies != [] {
      var front := r.(cookies := r.cookies[..|r.cookies| - 1]);
      StoreIsTake(isIP, s, front);
      assert Arrivals(r)[..|r.cookies| - 1] == Arrivals(front);
    }
  }

  /** Responses are stored cookie by cookie. */
  lemma {:induction false} HistoryIsArrivals(isIP: string -> bool, history: seq<Response>)
    ensures After(isIP, history) == Take(isIP, FRESH, AllArrivals(history))
    decreases |history|
  {
    if history != [] {
      var n := |history| - 1;
      HistoryIsArrivals(isIP, history[..n]);
      StoreIsTake(isIP, After(isIP, history[..n]), history[n]);
      TakeThen(isIP, FRESH, AllArrivals(history[..n]), Arrivals(history[n]));
    }
  }

  // ---- the last arrival for a key decides ----

  /** The arrival asks for the removal of its cookie: a negative Max-Age, or none and a date that has come. */
  ghost predicate Removes(a: Arrival) {
    a.cookie.maxAge < 0 || (a.cookie.maxAge == 0 && a.cookie.expires.Some? && a.cookie.expires.value <= a.at)
  }

  /** The arrival is accepted and for a cookie with the same name, domain and path. */
  ghost predicate SameCookie(isIP: string -> bool, a: Arrival, c: Attributes) {
    exists d :: Says(isIP, a, d) && d.name == c.name && d.domain == c.domain && d.path == c.path
  }

  ghost predicate IsLastFor(isIP: string -> bool, q: seq<Arrival>, i: nat, c: Attributes) {
    i < |q| && Says(isIP, q[i], c) && forall j :: i < j < |q| ==> !SameCookie(isIP, q[j], c)
  }

  lemma {:induction false} OtherCookieStays(isIP: string -> bool, s: State, a: Arrival, c: Attributes)
    requires !SameCookie(isIP, a, c)
    ensures var t := StoreOne(isIP, s, a.url, a.cookie, a.at);
            && (JarKey(c) in t.cookies <==> JarKey(c) in s.cookies)
            && (JarKey(c) in s.cookies ==> t.cookies[JarKey(c)] == s.cookies[JarKey(c)])
  {
    var owner := OwnerOf(isIP, Lower(a.url.hostname), a.cookie.domain);
    if a.cookie.name != "" && owner.Owned? {
      var d := Arrived(a.url, a.cookie, owner, a.at);
      SaysExactly(isIP, a, d);
      assert JarKey(d) != JarKey(c);
    }
  }

  /** In s, c is held as arrival a says, unless a removes it, or finds the jar full and c not there. */
  ghost predicate Decided(before: State, a: Arrival, s: State, c: Attributes) {
    && (JarKey(c) in s.cookies <==> !Removes(a) && (JarKey(c) in before.cookies || |before.cookies| < 3000))
    && (JarKey(c) in s.cookies ==> s.cookies[JarKey(c)].attrs == c)
  }

  lemma {:induction false} ArrivalDecides(isIP: string -> bool, s: State, a: Arrival, c: Attributes)
    requires Says(isIP, a, c)
    ensures Decided(s, a, StoreOne(isIP, s, a.url, a.cookie, a.at), c)
  {
    SaysExactly(isIP, a, c);
  }

  lemma {:induction false} StaysDecided(isIP: string -> bool, before: State, a: Arrival, s: State, c: Attributes,
                                        later: Arrival)
    requires Decided(before, a, s, c) && !SameCookie(isIP, later, c)
    ensures Decided(before, a, StoreOne(isIP, s, later.url, later.cookie, later.at), c)
  {
    OtherCookieStays(isIP, s, later, c);
  }

  lemma {:induction false} StaysDecidedBy(isIP: string -> bool, before: State, a: Arrival, s: State, c: Attributes,
                                          rest: seq<Arrival>)
    requires Decided(before, a, s, c) && forall j :: 0 <= j < |rest| ==> !SameCookie(isIP, rest[j], c)
    ensures Decided(before, a, Take(isIP, s, rest), c)
    decreases |rest|
  {
    if rest != [] {
      var n := |rest| - 1;
      StaysDecidedBy(isIP, before, a, s, c, rest[..n]);
      StaysDecided(isIP, before, a, Take(isIP, s, rest[..n]), c, rest[n]);
    }
  }

  lemma {:induction false} TakeParts(isIP: string -> bool, q: seq<Arrival>, i: nat)
    requires i < |q|
    ensures var before := Take(isIP, FRESH, q[..i]);
            Take(isIP, FRESH, q)
            == Take(isIP, StoreOne(isIP, before, q[i].url, q[i].cookie, q[i].at), q[i + 1..])
  {
    assert q == q[..i + 1] + q[i + 1..] && q[..i + 1][..i] == q[..i];
    TakeThen(isIP, FRESH, q[..i + 1], q[i + 1..]);
  }

  /** The last arrival for a cookie decides whether it is held, and as what. */
  lemma {:induction false} LastArrivalDecides(isIP: string -> bool, q: seq<Arrival>, i: nat, c: Attributes)
    requires IsLastFor(isIP, q, i, c)
    ensures Decided(Take(isIP, FRESH, q[..i]), q[i], Take(isIP, FRESH, q), c)
  {
    var before := Take(isIP, FRESH, q[..i]);
    TakeParts(isIP, q, i);
    ArrivalDecides(isIP, before, q[i], c);
    var rest := q[i + 1..];
    forall j | 0 <= j < |rest| ensures !SameCookie(isIP, rest[j], c) {
      assert rest[j] == q[i + 1 + j];
    }
    StaysDecidedBy(isIP, before, q[i], StoreOne(isIP, before, q[i].url, q[i].cookie, q[i].at), c, rest);
  }

  // ---- exactly what is sent ----

  /** The cookie has not ended: a Max-Age that fits has not run out, or the date given has not come. */
  ghost predicate Lasts(c: Attributes, a: Arrival, now: int) {
    if 0 < a.cookie.maxAge <= 9223372036 then now < a.at + a.cookie.maxAge * 1_000_000_000
    else if a.cookie.maxAge > 9223372036 then c.expires.Some? && now < c.expires.value
    else a.cookie.expires.None? || now < a.cookie.expires.value
  }

  /** The path, or the root for none, is the cookie's or lies below it. */
  ghost predicate Below(path: string, dir: string) {
    var p := if path == "" then "/" else path;
    p == dir || exists rest :: p == dir + rest && rest != "" && (HasSuffix(dir, "/") || rest[0] == '/')
  }

  lemma {:induction false} BelowExactly(path: string, dir: string)
    ensures PathMatch(path, dir) <==> Below(path, dir)
  {
    var p := if path == "" then "/" else path;
    if HasPrefix(p, dir) {
      assert p == dir + p[|dir|..];
      assert p != dir ==> p[|dir|..] != "";
    }
  }

  /** The host is the cookie's, or below its domain if it is not for the host alone. */
  ghost predicate Reaches(c: Attributes, host: string) {
    if c.hostOnly then host == c.domain else Covered(host, c.domain)
  }

  /**
   Exactly which cookies go out: the one its last arrival says goes with a request at time now exactly if that
   arrival did not remove it and found it there or found room for it, it has not ended, and host, path and scheme
   of the request are those it is for.
   */
  lemma {:induction false} SentExactly(isIP: string -> bool, q: seq<Arrival>, i: nat, c: Attributes, u: Url, now: int)
    requires IsLastFor(isIP, q, i, c) && Valid(Take(isIP, FRESH, q))
    ensures var before := Take(isIP, FRESH, q[..i]);
            (exists n :: Cookie(c, n) in Sent(Take(isIP, FRESH, q), u, now)) <==>
            && !Removes(q[i]) && (JarKey(c) in before.cookies || |before.cookies| < 3000)
            && Lasts(c, q[i], now) && Reaches(c, Lower(u.hostname)) && Below(u.path, c.path)
            && (c.secure ==> u.scheme == "https")
  {
    var s := Take(isIP, FRESH, q);
    LastArrivalDecides(isIP, q, i, c);
    OrdersAreStrict(s, Matching(s, u, now));
    BelowExactly(u.path, c.path);
    forall n
      ensures Cookie(c, n) in Sent(s, u, now) <==> Cookie(c, n) in Held(s) && Matches(c, u, now)
    {
      assert Cookie(c, n) in Sent(s, u, now) <==> Cookie(c, n) in Elems(Sent(s, u, now));
    }
    if JarKey(c) in s.cookies {
      var held := s.cookies[JarKey(c)];
      assert held == Cookie(c, held.created) && held in Held(s);
    }
  }

  /** Response r said so with its cookie number i, did not remove it, and it lasts until after now. */
  ghost predicate SaidBy(isIP: string -> bool, c: Attributes, r: Response, i: nat, now: int) {
    i < |r.cookies|
    && var a := Arrival(r.url, r.cookies[i], r.at);
       Says(isIP, a, c) && !Removes(a) && Lasts(c, a, now)
  }

  lemma {:induction false} OriginSays(isIP: string -> bool, c: Cookie, r: Response, i: nat, u: Url, now: int)
    requires SetBy(isIP, c, r, i) && Matches(c.attrs, u, now)
    ensures SaidBy(isIP, c.attrs, r, i, now) && SameReach(c, Lower(r.url.hostname), Lower(u.hostname))
  {
    SaysExactly(isIP, Arrival(r.url, r.cookies[i], r.at), c.attrs);
  }

  /**
   In every history of responses, whatever is sent to u is what one of them said, with every attribute and with
   an end that has not come; from a host its domain covers (for a host-only cookie, the very host); and it is
   within its path and not a secure cookie on a plain connection.
   */
  lemma {:induction false} SentCookieHasOrigin(isIP: string -> bool, history: seq<Response>, u: Url, now: int,
                                               c: Cookie)
    requires Valid(After(isIP, history))
    requires c in Sent(After(isIP, history), u, now)
    ensures exists h, i: nat ::
              && 0 <= h < |history| && SetBy(isIP, c, history[h], i) && SaidBy(isIP, c.attrs, history[h], i, now)
              && SameReach(c, Lower(history[h].url.hostname), Lower(u.hostname))
    ensures Below(u.path, c.attrs.path) && (c.attrs.secure ==> u.scheme == "https")
    ensures Unexpired(c.attrs, now) && PathMatch(u.path, c.attrs.path)
  {
    var s := After(isIP, history);
    OrdersAreStrict(s, Matching(s, u, now));
    assert c in Elems(Sent(s, u, now));
    HeldOrigin(isIP, history, c);
    var h, i: nat :| 0 <= h < |history| && SetBy(isIP, c, history[h], i);
    OriginSays(isIP, c, history[h], i, u, now);
    BelowExactly(u.path, c.attrs.path);
  }

  /** The list has exactly the held cookies whose end has not come, and the export all that are held. */
  lemma {:induction false} ListedExactly(s: State, now: int, c: Cookie)
    requires Valid(s)
    ensures c in Listed(s, now) <==>
            && JarKey(c.attrs) in s.cookies && s.cookies[JarKey(c.attrs)] == c
            && (c.attrs.expires.None? || now < c.attrs.expires.value)
    ensures c in Exported(s) <==> JarKey(c.attrs) in s.cookies && s.cookies[JarKey(c.attrs)] == c
  {
    var some := set d | d in Held(s) && Unexpired(d.attrs, now);
    ListOrderIsStrict(s, some);
    OrdersAreStrict(s, Held(s));
    assert c in Listed(s, now) <==> c in Elems(Listed(s, now));
    assert c in Exported(s) <==> c in Elems(Exported(s));
    if c in Held(s) {
      var k :| k in s.cookies && s.cookies[k] == c;
    }
  }

  // ---- the orders ----

  /** The header has longer paths first, and the earlier created of two as long. */
  lemma {:induction false} SentInOrder(s: State, u: Url, now: int, i: nat, j: nat)
    requires Valid(s) && i < j < |Sent(s, u, now)|
    ensures var c, d := Sent(s, u, now)[i], Sent(s, u, now)[j];
            |c.attrs.path| > |d.attrs.path| || (|c.attrs.path| == |d.attrs.path| && c.created < d.created)
  {
    OrdersAreStrict(s, Matching(s, u, now));
    assert HeaderLess(Sent(s, u, now)[i], Sent(s, u, now)[j]);
  }

  /** The list is by domain, then path, then name. */
  lemma {:induction false} ListedInOrder(s: State, now: int, i: nat, j: nat)
    requires Valid(s) && i < j < |Listed(s, now)|
    ensures var c, d := Listed(s, now)[i].attrs, Listed(s, now)[j].attrs;
            || LexLess(c.domain, d.domain)
            || (c.domain == d.domain && LexLess(c.path, d.path))
            || (c.domain == d.domain && c.path == d.path && LexLess(c.name, d.name))
  {
    ListOrderIsStrict(s, set c | c in Held(s) && Unexpired(c.attrs, now));
    assert ListLess(Listed(s, now)[i], Listed(s, now)[j]);
  }

  // ---- the header, read back ----

  /** The fields of a Cookie header: what stands between semicolons, without the blank after each. */
  function HeaderFields(text: string, begun: string): seq<string>
    decreases |text|
  {
    if text == "" then [begun]
    else if text[0] == ';' then
      [begun] + HeaderFields(if HasPrefix(text[1..], " ") then text[2..] else text[1..], "")
    else HeaderFields(text[1..], begun + [text[0]])
  }

  lemma {:induction false} FieldThen(field: string, rest: string, begun: string)
    requires ';' !in field
    ensures HeaderFields(field + rest, begun) == HeaderFields(rest, begun + field)
    decreases |field|
  {
    if field == "" {
      assert field + rest == rest && begun + field == begun;
    } else {
      assert (field + rest)[1..] == field[1..] + rest;
      assert begun + [field[0]] + field[1..] == begun + field;
      FieldThen(field[1..], rest, begun + [field[0]]);
    }
  }

  lemma {:induction false} JoinedFields(parts: seq<string>)
    requires parts != [] && forall i :: 0 <= i < |parts| ==> ';' !in parts[i]
    ensures HeaderFields(Join(parts, "; "), "") == parts
    decreases |parts|
  {
    var first := parts[0];
    if |parts| == 1 {
      FieldThen(first, "", "");
      assert first + "" == first && "" + first == first;
    } else {
      var rest := Join(parts[1..], "; ");
      JoinedFields(parts[1..]);
      FieldThen(first, "; " + rest, "");
      assert Join(parts, "; ") == first + ("; " + rest) && "" + first == first;
      assert ("; " + rest)[1..] == " " + rest && ("; " + rest)[2..] == rest;
    }
  }

  /** Divided at its semicolons, the header is name=value for each cookie sent, in order; it is empty for none. */
  lemma {:induction false} HeaderReadsBack(s: State, u: Url, now: int)
    requires Valid(s)
    requires forall c :: c in Sent(s, u, now) ==> ';' !in c.attrs.name && ';' !in c.attrs.value
    ensures var q := Sent(s, u, now);
            if q == [] then HeaderText(s, u, now) == ""
            else var fields := HeaderFields(HeaderText(s, u, now), "");
                 |fields| == |q|
                 && forall i :: 0 <= i < |q| ==> fields[i] == q[i].attrs.name + "=" + q[i].attrs.value
  {
    var q := Sent(s, u, now);
    if q != [] {
      forall i | 0 <= i < |q| ensures ';' !in Pairs(q)[i] {
        assert q[i] in q;
      }
      JoinedFields(Pairs(q));
    }
  }
}
