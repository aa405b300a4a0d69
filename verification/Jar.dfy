/**
 The cookie jar of one partition (section 5 of RFC 6265): its contents as a value, what storing and
 replacing do to it, and the three orders in which it is read.
 */
module CookieJar {
  import opened Sorting
  import opened Text

  const MAX_JAR_COOKIES: nat := 3000
  const SECOND: int := 1_000_000_000

  /** A parsed Set-Cookie header. Times are nanoseconds; an absent expiry is the zero time. */
  datatype SetCookie = SetCookie(name: string, value: string, domain: string, path: string,
                                 secure: bool, httpOnly: bool, maxAge: int, expires: Option<int>)

  /** What a stored cookie says, and the number it was filed under. */
  datatype Attributes = Attributes(name: string, value: string, domain: string, path: string, hostOnly: bool,
                                   secure: bool, httpOnly: bool, expires: Option<int>)

  datatype Cookie = Cookie(attrs: Attributes, created: int)

  /** The map key: domain, path and name joined by a NUL, a character that occurs in none of them. */
  datatype Key = Key(domain: string, path: string, name: string)

  function JarKey(c: Attributes): Key {
    Key(c.domain, c.path, c.name)
  }

  // ---- the attributes of an arriving cookie ----

  /** Durations are 64-bit: a product that does not fit wraps around. */
  function WrapInt64(x: int): (r: int)
    ensures -0x8000_0000_0000_0000 <= r < 0x8000_0000_0000_0000
  {
    (x + 0x8000_0000_0000_0000) % 0x1_0000_0000_0000_0000 - 0x8000_0000_0000_0000
  }

  function LastIndexOf(s: string, c: char): (r: int)
    ensures -1 <= r < |s|
    ensures r >= 0 ==> s[r] == c
    ensures c in s ==> r >= 0
  {
    if s == "" then -1
    else if s[|s| - 1] == c then |s| - 1
    else
      assert s == s[..|s| - 1] + [s[|s| - 1]];
      LastIndexOf(s[..|s| - 1], c)
  }

  function DefaultPath(p: string): string {
    if p == "" || p[0] != '/' then "/"
    else
      var i := LastIndexOf(p, '/');
      if i == 0 then "/" else p[..i]
  }

  function CookiePath(u: Url, attr: string): string {
    if attr == "" || attr[0] != '/' then DefaultPath(u.path) else attr
  }

  datatype Owner = Rejected | Owned(domain: string, hostOnly: bool)

  /** Which host, or which host and its subdomains, a cookie from `host` belongs to. */
  function OwnerOf(isIP: string -> bool, host: string, attr: string): Owner {
    var d := Lower(if HasPrefix(attr, ".") then attr[1..] else attr);
    if d == "" || (isIP(host) && d != host) then Owned(host, true)
    else if host == d || HasSuffix(host, "." + d) then Owned(d, false)
    else Rejected
  }

  function ExpiryOf(c: SetCookie, now: int): Option<int> {
    if c.maxAge > 0 then Some(now + WrapInt64(c.maxAge * SECOND)) else c.expires
  }

  predicate Deletes(c: SetCookie, now: int) {
    c.maxAge < 0 || (c.maxAge == 0 && c.expires.Some? && c.expires.value <= now)
  }

  /** The cookie an accepted arrival stands for, before it is numbered. */
  function Arrived(u: Url, c: SetCookie, owner: Owner, now: int): Attributes
    requires owner.Owned?
  {
    Attributes(c.name, c.value, owner.domain, CookiePath(u, c.path), owner.hostOnly, c.secure, c.httpOnly,
               ExpiryOf(c, now))
  }

  // ---- the contents, and what changes them ----

  datatype State = State(cookies: map<Key, Cookie>, last: int)

  const FRESH: State := State(map[], 0)

  /** Files the cookie jc that c stands for: deletes, replaces under the old number, drops or adds. */
  function File(s: State, c: SetCookie, jc: Attributes, now: int): State {
    var k := JarKey(jc);
    if Deletes(c, now) then s.(cookies := s.cookies - {k})
    else if k in s.cookies then s.(cookies := s.cookies[k := Cookie(jc, s.cookies[k].created)])
    else if |s.cookies| >= MAX_JAR_COOKIES then s
    else State(s.cookies[k := Cookie(jc, s.last + 1)], s.last + 1)
  }

  function StoreOne(isIP: string -> bool, s: State, u: Url, c: SetCookie, now: int): State {
    var owner := OwnerOf(isIP, Lower(u.hostname), c.domain);
    if c.name == "" || owner.Rejected? then s
    else File(s, c, Arrived(u, c, owner, now), now)
  }

  function StoreAll(isIP: string -> bool, s: State, u: Url, cs: seq<SetCookie>, now: int): State {
    if cs == [] then s
    else StoreOne(isIP, StoreAll(isIP, s, u, cs[..|cs| - 1], now), u, cs[|cs| - 1], now)
  }

  function ReplaceOne(s: State, c: Cookie): State {
    if c.attrs.name == "" || c.attrs.domain == "" then s
    else if c.created == 0 then State(s.cookies[JarKey(c.attrs) := Cookie(c.attrs, s.last + 1)], s.last + 1)
    else State(s.cookies[JarKey(c.attrs) := c], if c.created > s.last then c.created else s.last)
  }

  /** The contents after the list cs is put in place of what s held. */
  function ReplaceAll(s: State, cs: seq<Cookie>): State {
    if cs == [] then s.(cookies := map[])
    else ReplaceOne(ReplaceAll(s, cs[..|cs| - 1]), cs[|cs| - 1])
  }

  /** Cookies are filed under their own key, and their numbers are distinct, positive and used. */
  ghost predicate Valid(s: State) {
    && (forall k :: k in s.cookies ==> JarKey(s.cookies[k].attrs) == k && 1 <= s.cookies[k].created <= s.last)
    && (forall k, l :: SameNumber(s, k, l) ==> k == l)
    && s.last >= 0
  }

  ghost predicate SameNumber(s: State, k: Key, l: Key) {
    k in s.cookies && l in s.cookies && s.cookies[k].created == s.cookies[l].created
  }

  lemma {:induction false} StoreOneValid(isIP: string -> bool, s: State, u: Url, c: SetCookie, now: int)
    requires Valid(s)
    ensures Valid(StoreOne(isIP, s, u, c, now))
  {
    var owner := OwnerOf(isIP, Lower(u.hostname), c.domain);
    if c.name != "" && owner.Owned? {
      FileValid(s, c, Arrived(u, c, owner, now), now);
    }
  }

  lemma {:induction false} FileValid(s: State, c: SetCookie, jc: Attributes, now: int)
    requires Valid(s)
    ensures Valid(File(s, c, jc, now))
  {
    forall k, l | SameNumber(File(s, c, jc, now), k, l) ensures k == l {
      assert k in s.cookies && l in s.cookies ==> SameNumber(s, k, l);
    }
  }

  lemma {:induction false} StoreAllValid(isIP: string -> bool, s: State, u: Url, cs: seq<SetCookie>, now: int)
    requires Valid(s)
    ensures Valid(StoreAll(isIP, s, u, cs, now))
  {
    if cs != [] {
      StoreAllValid(isIP, s, u, cs[..|cs| - 1], now);
      StoreOneValid(isIP, StoreAll(isIP, s, u, cs[..|cs| - 1], now), u, cs[|cs| - 1], now);
    }
  }

  // ---- reading ----

  predicate PathMatch(reqPath: string, cookiePath: string) {
    var p := if reqPath == "" then "/" else reqPath;
    || p == cookiePath
    || (HasPrefix(p, cookiePath) && (HasSuffix(cookiePath, "/") || p[|cookiePath|] == '/'))
  }

  predicate DomainMatch(host: string, c: Attributes) {
    host == c.domain || (!c.hostOnly && HasSuffix(host, "." + c.domain))
  }

  predicate Unexpired(c: Attributes, now: int) {
    c.expires.None? || c.expires.value > now
  }

  predicate Matches(c: Attributes, u: Url, now: int) {
    && DomainMatch(Lower(u.hostname), c)
    && (c.secure ==> u.scheme == "https")
    && Unexpired(c, now)
    && PathMatch(u.path, c.path)
  }

  /** Longer paths first, then earlier creation (section 5.4 of RFC 6265). */
  predicate HeaderLess(a: Cookie, b: Cookie) {
    if |a.attrs.path| != |b.attrs.path| then |a.attrs.path| > |b.attrs.path| else a.created < b.created
  }

  predicate ListLess(a: Cookie, b: Cookie) {
    var x, y := a.attrs, b.attrs;
    if x.domain != y.domain then LexLess(x.domain, y.domain)
    else if x.path != y.path then LexLess(x.path, y.path)
    else LexLess(x.name, y.name)
  }

  predicate CreatedLess(a: Cookie, b: Cookie) {
    a.created < b.created
  }

  ghost function Held(s: State): set<Cookie> {
    set k | k in s.cookies :: s.cookies[k]
  }

  lemma {:induction false} OrdersAreStrict(s: State, some: set<Cookie>)
    requires Valid(s) && some <= Held(s)
    ensures StrictTotalOn(HeaderLess, some)
    ensures StrictTotalOn(CreatedLess, some)
  {
    forall x, y | x in some && y in some && x != y ensures x.created != y.created {
      HeldDiffer(s, x, y);
    }
  }

  lemma {:induction false} HeldDiffer(s: State, x: Cookie, y: Cookie)
    requires Valid(s) && x in Held(s) && y in Held(s) && x != y
    ensures JarKey(x.attrs) != JarKey(y.attrs) && x.created != y.created
  {
    var k :| k in s.cookies && s.cookies[k] == x;
    var l :| l in s.cookies && s.cookies[l] == y;
    assert !SameNumber(s, k, l);
  }

  lemma {:induction false} ListOrderIsStrict(s: State, some: set<Cookie>)
    requires Valid(s) && some <= Held(s)
    ensures StrictTotalOn(ListLess, some)
  {
    forall x, y | x in some && y in some && x != y ensures ListLess(x, y) || ListLess(y, x) {
      HeldDiffer(s, x, y);
      LexTotal(x.attrs.domain, y.attrs.domain);
      LexTotal(x.attrs.path, y.attrs.path);
      LexTotal(x.attrs.name, y.attrs.name);
    }
    forall x | x in some ensures !ListLess(x, x) { LexIrreflexive(x.attrs.name); }
    forall x, y, z | x in some && y in some && z in some && ListLess(x, y) && ListLess(y, z) ensures ListLess(x, z) {
      ListLessTransitive(x, y, z);
    }
  }

  lemma {:induction false} ListLessTransitive(x: Cookie, y: Cookie, z: Cookie)
    requires ListLess(x, y) && ListLess(y, z)
    ensures ListLess(x, z)
  {
    var a, b, c := x.attrs, y.attrs, z.attrs;
    if a.domain != b.domain && b.domain != c.domain {
      LexTransitive(a.domain, b.domain, c.domain);
      LexIrreflexive(a.domain);
    } else if a.domain == b.domain == c.domain {
      if a.path != b.path && b.path != c.path {
        LexTransitive(a.path, b.path, c.path);
        LexIrreflexive(a.path);
      } else if a.path == b.path == c.path {
        LexTransitive(a.name, b.name, c.name);
      }
    }
  }

  ghost function Matching(s: State, u: Url, now: int): set<Cookie> {
    set c | c in Held(s) && Matches(c.attrs, u, now)
  }

  /** The cookies sent to u at time now, in the order they are sent. */
  ghost function Sent(s: State, u: Url, now: int): seq<Cookie>
    requires Valid(s)
  {
    OrdersAreStrict(s, Matching(s, u, now));
    Listing(HeaderLess, Matching(s, u, now))
  }

  function Pairs(q: seq<Cookie>): (r: seq<string>)
    ensures |r| == |q| && forall i :: 0 <= i < |q| ==> r[i] == q[i].attrs.name + "=" + q[i].attrs.value
  {
    seq(|q|, i requires 0 <= i < |q| => q[i].attrs.name + "=" + q[i].attrs.value)
  }

  ghost function HeaderText(s: State, u: Url, now: int): string
    requires Valid(s)
  {
    Join(Pairs(Sent(s, u, now)), "; ")
  }

  ghost function Listed(s: State, now: int): seq<Cookie>
    requires Valid(s)
  {
    var some := set c | c in Held(s) && Unexpired(c.attrs, now);
    ListOrderIsStrict(s, some);
    Listing(ListLess, some)
  }

  ghost function Exported(s: State): seq<Cookie>
    requires Valid(s)
  {
    OrdersAreStrict(s, Held(s));
    Listing(CreatedLess, Held(s))
  }

  // ---- the jar ----

  class Jar {
    const isIP: string -> bool
    var cookies: map<Key, Cookie>
    var seqNo: int

    constructor (isIP: string -> bool)
      ensures this.isIP == isIP && Contents() == FRESH
    {
      this.isIP := isIP;
      cookies, seqNo := map[], 0;
    }

    ghost function Contents(): State
      reads this
    {
      State(cookies, seqNo)
    }

    method Store(u: Url, cs: seq<SetCookie>, now: int)
      requires Valid(Contents())
      modifies this
      ensures Contents() == StoreAll(isIP, old(Contents()), u, cs, now)
      ensures Valid(Contents())
    {
      var host := Lower(u.hostname);
      for i := 0 to |cs|
        invariant Contents() == StoreAll(isIP, old(Contents()), u, cs[..i], now)
      {
        assert cs[..i + 1][..i] == cs[..i];
        StoreCookie(u, host, cs[i], now);
      }
      assert cs[..|cs|] == cs;
      StoreAllValid(isIP, old(Contents()), u, cs, now);
    }

    /** The body of the loop over the arriving cookies. */
    method StoreCookie(u: Url, host: string, c: SetCookie, now: int)
      requires host == Lower(u.hostname)
      modifies this
      ensures Contents() == StoreOne(isIP, old(Contents()), u, c, now)
    {
      if c.name == "" {
        return;
      }
      var jc := Attributes(c.name, c.value, "", "", false, c.secure, c.httpOnly, None);
      var d := Lower(if HasPrefix(c.domain, ".") then c.domain[1..] else c.domain);
      if d == "" || (isIP(host) && d != host) {
        jc := jc.(domain := host, hostOnly := true);
      } else if host == d || HasSuffix(host, "." + d) {
        jc := jc.(domain := d);
      } else {
        return;
      }
      jc := jc.(path := c.path);
      if jc.path == "" || jc.path[0] != '/' {
        jc := jc.(path := DefaultPath(u.path));
      }
      ghost var want := Arrived(u, c, OwnerOf(isIP, host, c.domain), now);
      assert jc == want.(expires := None);
      FileCookie(c, jc, want, now);
    }

    /** The second half of the loop body: expiry, then replacing, adding or dropping the cookie. */
    method FileCookie(c: SetCookie, cookie: Attributes, ghost want: Attributes, now: int)
      requires cookie == want.(expires := None) && want.expires == ExpiryOf(c, now)
      modifies this
      ensures Contents() == File(old(Contents()), c, want, now)
    {
      var jc := cookie;
      if c.maxAge < 0 {
        cookies := cookies - {JarKey(jc)};
        return;
      } else if c.maxAge > 0 {
        jc := jc.(expires := Some(now + WrapInt64(c.maxAge * SECOND)));
      } else if c.expires.Some? {
        jc := jc.(expires := c.expires);
        if c.expires.value <= now {
          cookies := cookies - {JarKey(jc)};
          return;
        }
      }
      var k := JarKey(jc);
      var created;
      if k in cookies {
        created := cookies[k].created;
      } else {
        if |cookies| >= MAX_JAR_COOKIES {
          return;
        }
        seqNo := seqNo + 1;
        created := seqNo;
      }
      cookies := cookies[k := Cookie(jc, created)];
    }

    /** Ranges over the map in no particular order, keeping the cookies that pass. */
    method Collect(pass: Cookie -> bool) returns (q: seq<Cookie>)
      requires Valid(Contents())
      ensures NoDuplicates(q) && Elems(q) == set c | c in Held(Contents()) && pass(c)
    {
      q := [];
      var rest := cookies.Keys;
      while rest != {}
        invariant rest <= cookies.Keys
        invariant NoDuplicates(q)
        invariant Elems(q) == set k | k in cookies && k !in rest && pass(cookies[k]) :: cookies[k]
        decreases rest
      {
        var k :| k in rest;
        if pass(cookies[k]) {
          forall i | 0 <= i < |q| ensures q[i] != cookies[k] {
            assert q[i] in Elems(q);
          }
          assert Elems(q + [cookies[k]]) == Elems(q) + {cookies[k]};
          q := q + [cookies[k]];
        }
        rest := rest - {k};
      }
    }

    method Header(u: Url, now: int) returns (r: string)
      requires Valid(Contents())
      ensures r == HeaderText(Contents(), u, now)
    {
      var m := Collect((c: Cookie) => Matches(c.attrs, u, now));
      assert Elems(m) == Matching(Contents(), u, now);
      OrdersAreStrict(Contents(), Elems(m));
      m := SortSlice(HeaderLess, m);
      var parts := [];
      for i := 0 to |m|
        invariant parts == Pairs(m[..i])
      {
        assert Pairs(m[..i + 1]) == Pairs(m[..i]) + [m[i].attrs.name + "=" + m[i].attrs.value];
        parts := parts + [m[i].attrs.name + "=" + m[i].attrs.value];
      }
      assert m[..|m|] == m;
      r := Join(parts, "; ");
    }

    method List(now: int) returns (r: seq<Cookie>)
      requires Valid(Contents())
      ensures r == Listed(Contents(), now)
    {
      var m := Collect((c: Cookie) => Unexpired(c.attrs, now));
      assert Elems(m) == set c | c in Held(Contents()) && Unexpired(c.attrs, now);
      ListOrderIsStrict(Contents(), Elems(m));
      r := SortSlice(ListLess, m);
    }

    method Clear()
      modifies this
      ensures Contents() == old(Contents()).(cookies := map[])
    {
      cookies := map[];
    }

    method Export() returns (r: seq<Cookie>)
      requires Valid(Contents())
      ensures r == Exported(Contents())
    {
      var m := Collect((c: Cookie) => true);
      assert Elems(m) == Held(Contents());
      OrdersAreStrict(Contents(), Elems(m));
      r := SortSlice(CreatedLess, m);
    }

    method Replace(cs: seq<Cookie>)
      modifies this
      ensures Contents() == ReplaceAll(old(Contents()), cs)
    {
      cookies := map[];
      for i := 0 to |cs|
        invariant Contents() == ReplaceAll(old(Contents()), cs[..i])
      {
        var c := cs[i];
        assert cs[..i + 1][..i] == cs[..i];
        if c.attrs.name == "" || c.attrs.domain == "" {
          continue;
        }
        if c.created == 0 {
          seqNo := seqNo + 1;
          c := c.(created := seqNo);
        } else if c.created > seqNo {
          seqNo := c.created;
        }
        cookies := cookies[JarKey(c.attrs) := c];
      }
      assert cs[..|cs|] == cs;
    }
  }
}
