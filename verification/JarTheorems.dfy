/**
 What holds of every cookie jar: where its cookies came from, what a full jar keeps, when a cookie is
 sent back to the URL that set it, and that exporting and replacing preserves all later behaviour.
 */
module CookieJarTheorems {
  import opened Sorting
  import opened Text
  import opened CookieJar

  // ---- capacity ----

  /** Storing keeps every cookie that the arriving one does not explicitly delete, keeps its number,
      and never takes a jar past its capacity. */
  lemma {:induction false} StoreKeepsCookies(isIP: string -> bool, s: State, u: Url, c: SetCookie, now: int)
    ensures var t := StoreOne(isIP, s, u, c, now);
            && |t.cookies| <= (if |s.cookies| > MAX_JAR_COOKIES then |s.cookies| else MAX_JAR_COOKIES)
            && (forall k :: k in s.cookies && !Deletes(c, now) ==>
                  k in t.cookies && t.cookies[k].created == s.cookies[k].created)
            && (forall k :: k in s.cookies && k !in t.cookies ==>
                  var owner := OwnerOf(isIP, Lower(u.hostname), c.domain);
                  owner.Owned? && owner.domain == k.domain && CookiePath(u, c.path) == k.path && c.name == k.name)
            && (forall k :: k in t.cookies && k !in s.cookies ==> |s.cookies| < MAX_JAR_COOKIES)
  {
    var owner := OwnerOf(isIP, Lower(u.hostname), c.domain);
    if c.name != "" && owner.Owned? {
      var k := JarKey(Arrived(u, c, owner, now));
      assert |s.cookies - {k}| <= |s.cookies| by { RemovalShrinks(s.cookies, k); }
    }
  }

  lemma {:induction false} RemovalShrinks<K, V>(m: map<K, V>, k: K)
    ensures |m - {k}| <= |m|
  {
    if k in m {
      assert m == (m - {k})[k := m[k]];
    } else {
      assert m - {k} == m;
    }
  }

  lemma {:induction false} StoreAllBounded(isIP: string -> bool, s: State, u: Url, cs: seq<SetCookie>, now: int)
    requires |s.cookies| <= MAX_JAR_COOKIES
    ensures |StoreAll(isIP, s, u, cs, now).cookies| <= MAX_JAR_COOKIES
    decreases |cs|
  {
    if cs != [] {
      StoreAllBounded(isIP, s, u, cs[..|cs| - 1], now);
      StoreKeepsCookies(isIP, StoreAll(isIP, s, u, cs[..|cs| - 1], now), u, cs[|cs| - 1], now);
    }
  }

  // ---- histories ----

  datatype Response = Response(url: Url, cookies: seq<SetCookie>, at: int)

  function After(isIP: string -> bool, history: seq<Response>): State {
    if history == [] then FRESH
    else
      var r := history[|history| - 1];
      StoreAll(isIP, After(isIP, history[..|history| - 1]), r.url, r.cookies, r.at)
  }

  /** Response r set cookie c, its creation number aside. */
  ghost predicate SetBy(isIP: string -> bool, c: Cookie, r: Response, i: nat) {
    && i < |r.cookies|
    && var sc := r.cookies[i];
       var owner := OwnerOf(isIP, Lower(r.url.hostname), sc.domain);
       sc.name != "" && owner.Owned? && !Deletes(sc, r.at) && c.attrs == Arrived(r.url, sc, owner, r.at)
  }

  ghost predicate HasOrigin(isIP: string -> bool, c: Cookie, history: seq<Response>) {
    exists h, i: nat :: 0 <= h < |history| && SetBy(isIP, c, history[h], i)
  }

  lemma {:induction false} StoreOneOrigin(isIP: string -> bool, s: State, r: Response, i: nat, c: Cookie)
    requires i < |r.cookies| && c in Held(StoreOne(isIP, s, r.url, r.cookies[i], r.at))
    ensures c in Held(s) || SetBy(isIP, c, r, i)
  {
    var t := StoreOne(isIP, s, r.url, r.cookies[i], r.at);
    var k :| k in t.cookies && t.cookies[k] == c;
    var owner := OwnerOf(isIP, Lower(r.url.hostname), r.cookies[i].domain);
    if r.cookies[i].name != "" && owner.Owned? {
      var jc := Arrived(r.url, r.cookies[i], owner, r.at);
      if k in s.cookies && s.cookies[k] == c {
      } else {
        assert k == JarKey(jc) && c.attrs == jc;
      }
    }
  }

  lemma {:induction false} StoredOrigin(isIP: string -> bool, s: State, r: Response, n: nat, c: Cookie)
    requires n <= |r.cookies| && c in Held(StoreAll(isIP, s, r.url, r.cookies[..n], r.at))
    ensures c in Held(s) || exists i: nat :: i < n && SetBy(isIP, c, r, i)
    decreases n
  {
    if n > 0 {
      var before := StoreAll(isIP, s, r.url, r.cookies[..n - 1], r.at);
      assert r.cookies[..n][..n - 1] == r.cookies[..n - 1];
      StoreOneOrigin(isIP, before, r, n - 1, c);
      if c in Held(before) {
        StoredOrigin(isIP, s, r, n - 1, c);
      }
    } else {
      assert r.cookies[..0] == [];
    }
  }

  lemma {:induction false} HeldOrigin(isIP: string -> bool, history: seq<Response>, c: Cookie)
    requires c in Held(After(isIP, history))
    ensures HasOrigin(isIP, c, history)
    decreases |history|
  {
    assert history != [];
    var n := |history| - 1;
    var r, before := history[n], After(isIP, history[..n]);
    assert r.cookies[..|r.cookies|] == r.cookies;
    StoredOrigin(isIP, before, r, |r.cookies|, c);
    if i: nat :| i < |r.cookies| && SetBy(isIP, c, r, i) {
      assert SetBy(isIP, c, history[n], i);
    } else {
      HeldOrigin(isIP, history[..n], c);
      var h, i: nat :| 0 <= h < n && SetBy(isIP, c, history[..n][h], i);
      assert SetBy(isIP, c, history[h], i);
    }
  }

  lemma {:induction false} AfterValid(isIP: string -> bool, history: seq<Response>)
    ensures Valid(After(isIP, history)) && |After(isIP, history).cookies| <= MAX_JAR_COOKIES
    decreases |history|
  {
    if history != [] {
      var n := |history| - 1;
      AfterValid(isIP, history[..n]);
      StoreAllValid(isIP, After(isIP, history[..n]), history[n].url, history[n].cookies, history[n].at);
      StoreAllBounded(isIP, After(isIP, history[..n]), history[n].url, history[n].cookies, history[n].at);
    }
  }

  /** A host and a domain that covers it: the host itself or a name below the domain. */
  predicate Covered(host: string, domain: string) {
    host == domain || HasSuffix(host, "." + domain)
  }

  /** The cookie reaches from the one host to the other: the same, or both covered by its domain. */
  predicate SameReach(c: Cookie, from: string, to: string) {
    if c.attrs.hostOnly then from == to else Covered(from, c.attrs.domain) && Covered(to, c.attrs.domain)
  }

  // ---- a cookie goes back to where it came from ----

  lemma {:induction false} DefaultPathMatches(p: string)
    ensures PathMatch(p, DefaultPath(p)) <==> p == "" || p[0] == '/'
  {
    if p != "" && p[0] == '/' {
      var i := LastIndexOf(p, '/');
      assert '/' in p;
      if i > 0 {
        assert |p[..i]| == i;
      } else {
        assert p[..1] == "/";
      }
    }
  }

  /** A Max-Age that fits a 64-bit duration, in nanoseconds, expires in the future. */
  lemma {:induction false} MaxAgeFits(maxAge: int)
    requires 0 < maxAge < 2 * 9223372036
    ensures WrapInt64(maxAge * SECOND) > 0 <==> maxAge <= 9223372036
  {}

  /**
   An accepted cookie without a Path attribute is sent back to the URL that set it exactly when it is
   not a secure cookie set over a plain connection, its Max-Age does not wrap to a time already past,
   and the URL's path is empty or rooted.
   */
  lemma {:induction false} SentBackToSender(isIP: string -> bool, s: State, u: Url, c: SetCookie, now: int)
    requires Valid(s)
    requires c.name != "" && OwnerOf(isIP, Lower(u.hostname), c.domain).Owned? && !Deletes(c, now)
    requires c.path == "" || c.path[0] != '/'
    requires var k := Key(OwnerOf(isIP, Lower(u.hostname), c.domain).domain, DefaultPath(u.path), c.name);
             k in s.cookies || |s.cookies| < MAX_JAR_COOKIES
    ensures var t := StoreOne(isIP, s, u, c, now);
            var k := Key(OwnerOf(isIP, Lower(u.hostname), c.domain).domain, DefaultPath(u.path), c.name);
            && Valid(t) && k in t.cookies && t.cookies[k].attrs.value == c.value
            && (t.cookies[k] in Sent(t, u, now) <==>
                && (c.secure ==> u.scheme == "https")
                && (c.maxAge > 0 ==> WrapInt64(c.maxAge * SECOND) > 0)
                && (u.path == "" || u.path[0] == '/'))
  {
    StoreOneValid(isIP, s, u, c, now);
    var t := StoreOne(isIP, s, u, c, now);
    var k := Key(OwnerOf(isIP, Lower(u.hostname), c.domain).domain, DefaultPath(u.path), c.name);
    var jc := t.cookies[k];
    DefaultPathMatches(u.path);
    OrdersAreStrict(t, Matching(t, u, now));
    assert jc in Held(t);
    assert jc in Sent(t, u, now) <==> jc in Elems(Sent(t, u, now));
    assert jc in Sent(t, u, now) <==> Matches(jc.attrs, u, now);
  }

  /** A secure cookie that comes over http is filed and not sent back. */
  lemma {:induction false} SecureOverHttpIsNotSentBack(now: int)
    ensures var u := Url("http", "h", "h", "", "/", "");
            var t := StoreOne(h => false, FRESH, u, SetCookie("n", "v", "", "", true, false, 0, None), now);
            t.cookies != map[] && Sent(t, u, now) == []
  {
    NotSentBack(true, 0, now);
  }

  /** A cookie with the first Max-Age that does not fit its 64-bit duration is filed and not sent back. */
  lemma {:induction false} LongMaxAgeIsNotSentBack(now: int)
    ensures var u := Url("http", "h", "h", "", "/", "");
            var t := StoreOne(h => false, FRESH, u, SetCookie("n", "v", "", "", false, false, 9223372037, None), now);
            t.cookies != map[] && Sent(t, u, now) == []
  {
    MaxAgeFits(9223372037);
    NotSentBack(false, 9223372037, now);
  }

  lemma {:induction false} NotSentBack(secure: bool, maxAge: int, now: int)
    requires maxAge >= 0 && (secure || (maxAge > 0 && WrapInt64(maxAge * SECOND) <= 0))
    ensures var u := Url("http", "h", "h", "", "/", "");
            var t := StoreOne(h => false, FRESH, u, SetCookie("n", "v", "", "", secure, false, maxAge, None), now);
            t.cookies != map[] && Sent(t, u, now) == []
  {
    var u := Url("http", "h", "h", "", "/", "");
    var c := SetCookie("n", "v", "", "", secure, false, maxAge, None);
    var isIP := (h: string) => false;
    var t := StoreOne(isIP, FRESH, u, c, now);
    var k := Key(Lower("h"), DefaultPath("/"), "n");
    SentBackToSender(isIP, FRESH, u, c, now);
    assert t.cookies.Keys == {k};
    assert Held(t) == {t.cookies[k]};
    NothingSent(t, u, now, t.cookies[k]);
  }

  lemma {:induction false} NothingSent(s: State, u: Url, now: int, c: Cookie)
    requires Valid(s) && Held(s) == {c} && c !in Sent(s, u, now)
    ensures Sent(s, u, now) == []
  {
    OrdersAreStrict(s, Matching(s, u, now));
    var q := Sent(s, u, now);
    SomeElement(q);
    assert Elems(q) == {};
  }

  // ---- export and replace ----

  /** Equal but for the creation numbers, which are in the same order. */
  ghost predicate Similar(s: State, t: State) {
    && Valid(s) && Valid(t)
    && s.cookies.Keys == t.cookies.Keys
    && (forall k :: k in s.cookies ==> s.cookies[k].attrs == t.cookies[k].attrs)
    && (forall k, l :: Before(s, k, l) ==> Before(t, k, l))
  }

  ghost predicate Before(s: State, k: Key, l: Key) {
    k in s.cookies && l in s.cookies && s.cookies[k].created < s.cookies[l].created
  }

  lemma {:induction false} SimilarAfterFile(s: State, t: State, c: SetCookie, jc: Attributes, now: int)
    requires Similar(s, t)
    ensures Similar(File(s, c, jc, now), File(t, c, jc, now))
  {
    FileValid(s, c, jc, now);
    FileValid(t, c, jc, now);
    SameSize(s, t);
    forall k, l | Before(File(s, c, jc, now), k, l) ensures Before(File(t, c, jc, now), k, l) {
      assert k in s.cookies && l in s.cookies ==> Before(s, k, l) && Before(t, k, l);
    }
  }

  lemma {:induction false} SameSize(s: State, t: State)
    requires s.cookies.Keys == t.cookies.Keys
    ensures |s.cookies| == |t.cookies|
  {
    assert |s.cookies.Keys| == |s.cookies| && |t.cookies.Keys| == |t.cookies|;
  }

  lemma {:induction false} SimilarAfterStore(isIP: string -> bool, s: State, t: State, u: Url, cs: seq<SetCookie>,
                                             now: int)
    requires Similar(s, t)
    ensures Similar(StoreAll(isIP, s, u, cs, now), StoreAll(isIP, t, u, cs, now))
    decreases |cs|
  {
    if cs != [] {
      var c := cs[|cs| - 1];
      SimilarAfterStore(isIP, s, t, u, cs[..|cs| - 1], now);
      var owner := OwnerOf(isIP, Lower(u.hostname), c.domain);
      if c.name != "" && owner.Owned? {
        SimilarAfterFile(StoreAll(isIP, s, u, cs[..|cs| - 1], now), StoreAll(isIP, t, u, cs[..|cs| - 1], now), c,
                         Arrived(u, c, owner, now), now);
      }
    }
  }

  /** The cookies t holds under the keys of q's cookies. */
  function Counterparts(t: State, q: seq<Cookie>): (r: seq<Cookie>)
    requires forall c :: c in q ==> JarKey(c.attrs) in t.cookies
    ensures |r| == |q| && forall i :: 0 <= i < |q| ==> r[i] == t.cookies[JarKey(q[i].attrs)]
  {
    seq(|q|, i requires 0 <= i < |q| => t.cookies[JarKey(q[i].attrs)])
  }

  /** Selecting the same cookies of two similar states and sorting them gives counterparts. */
  lemma {:induction false} SimilarListings(s: State, t: State, less: (Cookie, Cookie) -> bool, some: set<Cookie>,
                                           other: set<Cookie>, q: seq<Cookie>)
    requires Similar(s, t) && some <= Held(s) && other <= Held(t)
    requires forall k :: k in s.cookies ==> (s.cookies[k] in some <==> t.cookies[k] in other)
    requires forall k, l :: k in s.cookies && l in s.cookies && less(s.cookies[k], s.cookies[l]) ==>
               less(t.cookies[k], t.cookies[l])
    requires IsListing(less, some, q)
    ensures (forall c :: c in q ==> JarKey(c.attrs) in t.cookies) && IsListing(less, other, Counterparts(t, q))
  {
    forall c | c in q ensures c in some && JarKey(c.attrs) in s.cookies && s.cookies[JarKey(c.attrs)] == c {
      assert c in Elems(q);
    }
    var r := Counterparts(t, q);
    assert Ascending(less, r) by {
      forall i, j | 0 <= i < j < |r| ensures less(r[i], r[j]) {
        assert q[i] in q && q[j] in q && less(q[i], q[j]);
      }
    }
    forall d | d in other ensures d in Elems(r) {
      var k :| k in t.cookies && t.cookies[k] == d;
      assert s.cookies[k] in Elems(q);
      var i :| 0 <= i < |q| && q[i] == s.cookies[k];
      assert r[i] == d;
    }
    forall d | d in Elems(r) ensures d in other {
      var i :| 0 <= i < |r| && r[i] == d;
      assert q[i] in q;
    }
  }

  /** A sequence of cookies as a reader sees it, without creation numbers. */
  function Visible(q: seq<Cookie>): (r: seq<Attributes>)
    ensures |r| == |q| && forall i :: 0 <= i < |q| ==> r[i] == q[i].attrs
  {
    seq(|q|, i requires 0 <= i < |q| => q[i].attrs)
  }

  lemma {:induction false} CounterpartsLookAlike(s: State, t: State, q: seq<Cookie>)
    requires Similar(s, t) && forall c :: c in q ==> c in Held(s)
    ensures (forall c :: c in q ==> JarKey(c.attrs) in t.cookies) && Visible(Counterparts(t, q)) == Visible(q)
  {
    forall c | c in q ensures JarKey(c.attrs) in s.cookies && s.cookies[JarKey(c.attrs)] == c {
      assert c in Held(s);
    }
    forall i | 0 <= i < |q| ensures Visible(Counterparts(t, q))[i] == Visible(q)[i] {
      assert q[i] in q;
    }
  }

  lemma {:induction false} SimilarSent(s: State, t: State, u: Url, now: int)
    requires Similar(s, t)
    ensures Visible(Sent(s, u, now)) == Visible(Sent(t, u, now))
  {
    var some, other := Matching(s, u, now), Matching(t, u, now);
    OrdersAreStrict(s, some);
    OrdersAreStrict(t, other);
    var q := Sent(s, u, now);
    forall k, l | k in s.cookies && l in s.cookies && HeaderLess(s.cookies[k], s.cookies[l])
      ensures HeaderLess(t.cookies[k], t.cookies[l])
    {
      assert Before(s, k, l) ==> Before(t, k, l);
    }
    SimilarListings(s, t, HeaderLess, some, other, q);
    ListingUnique(HeaderLess, other, Counterparts(t, q), Sent(t, u, now));
    assert forall c :: c in q ==> c in Elems(q);
    CounterpartsLookAlike(s, t, q);
  }

  lemma {:induction false} SimilarHeader(s: State, t: State, u: Url, now: int)
    requires Similar(s, t)
    ensures HeaderText(s, u, now) == HeaderText(t, u, now)
  {
    SimilarSent(s, t, u, now);
    var p, q := Sent(s, u, now), Sent(t, u, now);
    assert |p| == |Visible(p)| == |q|;
    forall i | 0 <= i < |p| ensures Pairs(p)[i] == Pairs(q)[i] {
      assert Visible(p)[i] == Visible(q)[i];
    }
    assert Pairs(p) == Pairs(q);
  }

  lemma {:induction false} SimilarListed(s: State, t: State, now: int)
    requires Similar(s, t)
    ensures Visible(Listed(s, now)) == Visible(Listed(t, now))
  {
    var some, other := set c | c in Held(s) && Unexpired(c.attrs, now), set c | c in Held(t) && Unexpired(c.attrs, now);
    ListOrderIsStrict(s, some);
    ListOrderIsStrict(t, other);
    var q := Listed(s, now);
    forall k, l | k in s.cookies && l in s.cookies && ListLess(s.cookies[k], s.cookies[l])
      ensures ListLess(t.cookies[k], t.cookies[l])
    {
    }
    SimilarListings(s, t, ListLess, some, other, q);
    ListingUnique(ListLess, other, Counterparts(t, q), Listed(t, now));
    assert forall c :: c in q ==> c in Elems(q);
    CounterpartsLookAlike(s, t, q);
  }

  lemma {:induction false} SimilarExported(s: State, t: State)
    requires Similar(s, t)
    ensures Visible(Exported(s)) == Visible(Exported(t))
  {
    OrdersAreStrict(s, Held(s));
    OrdersAreStrict(t, Held(t));
    var q := Exported(s);
    forall k, l | k in s.cookies && l in s.cookies && CreatedLess(s.cookies[k], s.cookies[l])
      ensures CreatedLess(t.cookies[k], t.cookies[l])
    {
      assert Before(s, k, l) && Before(t, k, l);
    }
    SimilarListings(s, t, CreatedLess, Held(s), Held(t), q);
    ListingUnique(CreatedLess, Held(t), Counterparts(t, q), Exported(t));
    assert forall c :: c in q ==> c in Elems(q);
    CounterpartsLookAlike(s, t, q);
  }

  // ---- every later sequence of calls answers alike ----

  datatype Call = Store(u: Url, cs: seq<SetCookie>, at: int) | Header(u: Url, at: int) | List(at: int) | Export | Clear

  datatype Answer = Done | Text(text: string) | Cookies(q: seq<Attributes>)

  ghost function Step(isIP: string -> bool, s: State, call: Call): (r: (State, Answer))
    requires Valid(s)
    ensures Valid(r.0)
  {
    match call
    case Store(u, cs, at) =>
      StoreAllValid(isIP, s, u, cs, at);
      (StoreAll(isIP, s, u, cs, at), Done)
    case Header(u, at) => (s, Text(HeaderText(s, u, at)))
    case List(at) => (s, Cookies(Visible(Listed(s, at))))
    case Export => (s, Cookies(Visible(Exported(s))))
    case Clear => (s.(cookies := map[]), Done)
  }

  ghost function Answers(isIP: string -> bool, s: State, calls: seq<Call>): seq<Answer>
    requires Valid(s)
    decreases |calls|
  {
    if calls == [] then []
    else
      var (t, a) := Step(isIP, s, calls[0]);
      [a] + Answers(isIP, t, calls[1..])
  }

  lemma {:induction false} SimilarAnswers(isIP: string -> bool, s: State, t: State, calls: seq<Call>)
    requires Similar(s, t)
    ensures Answers(isIP, s, calls) == Answers(isIP, t, calls)
    decreases |calls|
  {
    if calls != [] {
      match calls[0] {
        case Store(u, cs, at) => SimilarAfterStore(isIP, s, t, u, cs, at);
        case Header(u, at) => SimilarHeader(s, t, u, at);
        case List(at) => SimilarListed(s, t, at);
        case Export => SimilarExported(s, t);
        case Clear =>
      }
      SimilarAnswers(isIP, Step(isIP, s, calls[0]).0, Step(isIP, t, calls[0]).0, calls[1..]);
    }
  }

  /** cs lists the exported cookies q in order, either with their numbers or all without. */
  ghost predicate Restorable(q: seq<Cookie>, cs: seq<Cookie>) {
    && |cs| == |q|
    && Visible(cs) == Visible(q)
    && (cs == q || forall i :: 0 <= i < |cs| ==> cs[i].created == 0)
  }

  ghost predicate Named(s: State) {
    forall k :: k in s.cookies ==> k.name != "" && k.domain != ""
  }

  /** The first n cookies of q, filed under their keys with the numbers they have. */
  ghost function Filed(q: seq<Cookie>, n: nat): State
    requires n <= |q|
  {
    if n == 0 then FRESH
    else State(Filed(q, n - 1).cookies[JarKey(q[n - 1].attrs) := q[n - 1]], q[n - 1].created)
  }

  lemma {:induction false} ExportedCookie(s: State, i: nat)
    requires Valid(s) && i < |Exported(s)|
    ensures var c := Exported(s)[i]; JarKey(c.attrs) in s.cookies && s.cookies[JarKey(c.attrs)] == c && 1 <= c.created
    ensures i > 0 ==> Exported(s)[i - 1].created < Exported(s)[i].created
  {
    OrdersAreStrict(s, Held(s));
    var q := Exported(s);
    assert q[i] in Elems(q);
    assert i > 0 ==> CreatedLess(q[i - 1], q[i]);
  }

  lemma {:induction false} FiledIsPart(s: State, n: nat)
    requires Valid(s) && n <= |Exported(s)|
    ensures var q, u := Exported(s), Filed(Exported(s), n);
            && (forall k :: k in u.cookies ==>
                  k in s.cookies && u.cookies[k] == s.cookies[k] && u.cookies[k].created <= u.last)
            && (forall i :: 0 <= i < n ==> JarKey(q[i].attrs) in u.cookies)
            && 0 <= u.last
    decreases n
  {
    if n > 0 {
      FiledIsPart(s, n - 1);
      ExportedCookie(s, n - 1);
    }
  }

  lemma {:induction false} FiledIsAll(s: State)
    requires Valid(s)
    ensures Filed(Exported(s), |Exported(s)|).cookies == s.cookies
  {
    var q := Exported(s);
    FiledIsPart(s, |q|);
    OrdersAreStrict(s, Held(s));
    forall k | k in s.cookies ensures k in Filed(q, |q|).cookies {
      assert s.cookies[k] in Elems(q);
      var i :| 0 <= i < |q| && q[i] == s.cookies[k];
      assert JarKey(q[i].attrs) == k;
    }
  }

  /** Filing a cookie under a new key, with a number m above all there are. */
  ghost predicate Added(s: State, a: Attributes, m: int, s': State) {
    && JarKey(a) !in s.cookies && s'.cookies == s.cookies[JarKey(a) := Cookie(a, m)]
    && (forall k :: k in s.cookies ==> s.cookies[k].created < m)
    && 1 <= m <= s'.last && s.last <= s'.last
  }

  lemma {:induction false} SimilarAdded(s: State, t: State, a: Attributes, m: int, n: int, s': State, t': State)
    requires Similar(s, t) && Added(s, a, m, s') && Added(t, a, n, t')
    ensures Similar(s', t')
  {
    AddedValid(s, a, m, s');
    AddedValid(t, a, n, t');
    forall k, l | Before(s', k, l) ensures Before(t', k, l) {
      assert k in s.cookies && l in s.cookies ==> Before(s, k, l) && Before(t, k, l);
    }
  }

  lemma {:induction false} AddedValid(s: State, a: Attributes, m: int, s': State)
    requires Valid(s) && Added(s, a, m, s')
    ensures Valid(s')
  {
    forall k, l | SameNumber(s', k, l) ensures k == l {
      assert k in s.cookies && l in s.cookies ==> SameNumber(s, k, l);
    }
  }

  /** Putting the first n cookies of the list in place of what u held gives, but for the numbers, those cookies. */
  lemma {:induction false} ReplacedPrefix(s: State, u: State, cs: seq<Cookie>, n: nat)
    requires Valid(s) && Named(s) && Restorable(Exported(s), cs) && n <= |cs| && u.last >= 0
    ensures Similar(Filed(Exported(s), n), ReplaceAll(u, cs[..n]))
    ensures cs == Exported(s) ==> ReplaceAll(u, cs[..n]).cookies == Filed(Exported(s), n).cookies
    decreases n
  {
    if n > 0 {
      var q := Exported(s);
      var c := cs[n - 1];
      var t := ReplaceAll(u, cs[..n - 1]);
      ReplacedPrefix(s, u, cs, n - 1);
      assert cs[..n][..n - 1] == cs[..n - 1];
      assert Visible(cs)[n - 1] == Visible(q)[n - 1];
      FiledAdds(s, n - 1);
      var m := if c.created == 0 then t.last + 1 else c.created;
      ReplaceAdds(Filed(q, n - 1), t, c, q[n - 1].created, m);
      SimilarAdded(Filed(q, n - 1), t, c.attrs, q[n - 1].created, m, Filed(q, n), ReplaceAll(u, cs[..n]));
    }
  }

  lemma {:induction false} FiledAdds(s: State, n: nat)
    requires Valid(s) && Named(s) && n < |Exported(s)|
    ensures Added(Filed(Exported(s), n), Exported(s)[n].attrs, Exported(s)[n].created, Filed(Exported(s), n + 1))
    ensures Exported(s)[n].attrs.name != "" && Exported(s)[n].attrs.domain != ""
  {
    FiledIsPart(s, n);
    ExportedCookie(s, n);
  }

  /** A cookie that is new among those put in place so far is added under its own number, or the next. */
  lemma {:induction false} ReplaceAdds(f: State, t: State, c: Cookie, number: int, m: int)
    requires Similar(f, t) && c.attrs.name != "" && c.attrs.domain != ""
    requires JarKey(c.attrs) !in f.cookies && forall k :: k in f.cookies ==> f.cookies[k].created < number
    requires c.created == 0 || (c.created == number && t.cookies == f.cookies && number >= 1)
    requires m == if c.created == 0 then t.last + 1 else c.created
    ensures Added(t, c.attrs, m, ReplaceOne(t, c))
  {}

  /**
   Exporting a jar and replacing the contents of a jar with the export, be it fresh or used since, with
   or without the creation numbers, gives a similar jar exactly when no stored cookie has an empty name
   or domain.
   */
  lemma {:induction false} ReplaceRestores(s: State, u: State, cs: seq<Cookie>)
    requires Valid(s) && Restorable(Exported(s), cs) && u.last >= 0
    ensures Named(s) <==> Similar(s, ReplaceAll(u, cs))
  {
    if Named(s) {
      ReplacedPrefix(s, u, cs, |cs|);
      assert cs[..|cs|] == cs;
      FiledIsAll(s);
      SimilarThen(Filed(Exported(s), |cs|), s, ReplaceAll(u, cs));
    }
    ReplacedAreNamed(u, cs);
  }

  lemma {:induction false} SimilarThen(u: State, s: State, t: State)
    requires Similar(u, t) && Valid(s) && u.cookies == s.cookies
    ensures Similar(s, t)
  {
    forall k, l | Before(s, k, l) ensures Before(t, k, l) {
      assert Before(u, k, l);
    }
  }

  lemma {:induction false} ReplacedAreNamed(s: State, cs: seq<Cookie>)
    ensures forall k :: k in ReplaceAll(s, cs).cookies ==> k.name != "" && k.domain != ""
    decreases |cs|
  {
    if cs != [] {
      ReplacedAreNamed(s, cs[..|cs| - 1]);
    }
  }

  /** Every later sequence of calls answers as it would have on the exported jar. */
  lemma {:induction false} RestoredJarAnswersAlike(isIP: string -> bool, s: State, u: State, cs: seq<Cookie>,
                                                   calls: seq<Call>)
    requires Valid(s) && Named(s) && Restorable(Exported(s), cs) && u.last >= 0
    ensures Valid(ReplaceAll(u, cs)) && Answers(isIP, ReplaceAll(u, cs), calls) == Answers(isIP, s, calls)
  {
    ReplaceRestores(s, u, cs);
    SimilarAnswers(isIP, s, ReplaceAll(u, cs), calls);
  }

  /** A jar filled only from URLs that have a host holds no cookie with an empty name or domain. */
  lemma {:induction false} HistoryIsNamed(isIP: string -> bool, history: seq<Response>)
    requires forall i :: 0 <= i < |history| ==> history[i].url.hostname != ""
    ensures Named(After(isIP, history))
  {
    var s := After(isIP, history);
    AfterValid(isIP, history);
    forall k | k in s.cookies ensures k.name != "" && k.domain != "" {
      var c := s.cookies[k];
      HeldOrigin(isIP, history, c);
      var h, i: nat :| 0 <= h < |history| && SetBy(isIP, c, history[h], i);
    }
  }
}
