/** The string helpers of the Go library the program leans on. */
module Text {
  import opened Sorting

  datatype Option<+T> = None | Some(value: T)

  /** What texts on the wire are made of. */
  newtype Byte = b: int | 0 <= b < 256

  /** A parsed URL: host is the authority, hostname and port its two parts; path is the escaped path. */
  datatype Url = Url(scheme: string, host: string, hostname: string, port: string, path: string, query: string)

  predicate HasPrefix(s: string, p: string) {
    p <= s
  }

  predicate HasSuffix(s: string, p: string) {
    |p| <= |s| && s[|s| - |p|..] == p
  }

  /** The first index of c in s, or -1. */
  function IndexOf<T(==)>(s: seq<T>, c: T): (r: int)
    ensures -1 <= r < |s|
    ensures r < 0 <==> c !in s
    ensures r >= 0 ==> s[r] == c && c !in s[..r]
  {
    if s == [] then -1
    else if s[0] == c then 0
    else
      var r := IndexOf(s[1..], c);
      if r < 0 then -1 else
        assert s[..r + 1] == [s[0]] + s[1..][..r];
        r + 1
  }

  /** The first index is determined by what IndexOf promises about it. */
  lemma {:induction false} IndexOfIs<T>(s: seq<T>, c: T, i: nat)
    requires i < |s| && s[i] == c && c !in s[..i]
    ensures IndexOf(s, c) == i
  {
    if i > 0 {
      assert s[..i] == [s[0]] + s[1..][..i - 1];
      IndexOfIs(s[1..], c, i - 1);
    }
  }

  /** The elements of d occur in q, in the order in which they first occur there. */
  ghost predicate InFirstOrder<T>(d: seq<T>, q: seq<T>) {
    && (forall x :: x in d ==> x in q)
    && (forall i, j :: 0 <= i < j < |d| ==> FirstBefore(q, d[i], d[j]))
  }

  ghost predicate FirstBefore<T>(q: seq<T>, x: T, y: T) {
    exists k :: 0 <= k < |q| && q[k] == x && y !in q[..k + 1]
  }

  lemma {:induction false} FirstBeforeSnoc<T>(q: seq<T>, last: T, x: T, y: T)
    requires x in q
    ensures FirstBefore(q, x, y) ==> FirstBefore(q + [last], x, y)
    ensures y !in q && x != y ==> FirstBefore(q + [last], x, y)
  {
    if FirstBefore(q, x, y) {
      var k :| 0 <= k < |q| && q[k] == x && y !in q[..k + 1];
      assert (q + [last])[..k + 1] == q[..k + 1] && (q + [last])[k] == x;
    }
    if y !in q && x != y {
      var k :| 0 <= k < |q| && q[k] == x;
      assert (q + [last])[..k + 1] == q[..k + 1] && (q + [last])[k] == x;
    }
  }

  /** One more element leaves the order, and comes last if it is new. */
  lemma {:induction false} FirstOrderSnoc<T>(d: seq<T>, q: seq<T>, last: T)
    requires InFirstOrder(d, q)
    ensures InFirstOrder(d, q + [last])
    ensures last !in q ==> InFirstOrder(d + [last], q + [last])
  {
    forall i, j | 0 <= i < j < |d|
      ensures FirstBefore(q + [last], d[i], d[j])
    {
      FirstBeforeSnoc(q, last, d[i], d[j]);
    }
    if last !in q {
      forall i | 0 <= i < |d|
        ensures FirstBefore(q + [last], d[i], last)
      {
        FirstBeforeSnoc(q, last, d[i], last);
      }
    }
  }

  function Join<T>(parts: seq<seq<T>>, sep: seq<T>): seq<T> {
    if parts == [] then []
    else if |parts| == 1 then parts[0]
    else parts[0] + sep + Join(parts[1..], sep)
  }

  /** ASCII lower case. */
  function LowerChar(c: char): char {
    if 'A' <= c <= 'Z' then ((c as int) + 32) as char else c
  }

  function Lower(s: string): (r: string)
    ensures |r| == |s|
    ensures forall i :: 0 <= i < |s| ==> r[i] == LowerChar(s[i])
  {
    if s == [] then [] else [LowerChar(s[0])] + Lower(s[1..])
  }

  /** Case folding: ASCII, and the two letters outside it that fold to ASCII ones. */
  function FoldChar(c: char): char {
    if c == '\U{212a}' then 'k' else if c == '\U{17f}' then 's' else LowerChar(c)
  }

  predicate EqualFold(a: string, b: string) {
    |a| == |b| && forall i :: 0 <= i < |a| ==> FoldChar(a[i]) == FoldChar(b[i])
  }

  /** The letters from A to Z become those from a to z, and everything else stays. */
  lemma {:induction false} LowerExactly(c: char, i: nat)
    requires i < 26
    ensures LowerChar("ABCDEFGHIJKLMNOPQRSTUVWXYZ"[i]) == "abcdefghijklmnopqrstuvwxyz"[i]
    ensures c < 'A' || 'Z' < c ==> LowerChar(c) == c
  {
    assert "ABCDEFGHIJKLMNOPQRSTUVWXYZ"[i] as int == 65 + i && "abcdefghijklmnopqrstuvwxyz"[i] as int == 97 + i;
  }

  /** Two characters fold to one exactly if they are the same letter: in two cases, or the Kelvin sign and k, or the
      long s and s. */
  lemma {:induction false} FoldExactly(a: char, b: char)
    ensures FoldChar(a) == FoldChar(b) <==>
            || LowerChar(a) == LowerChar(b)
            || (a == '\U{212a}' && LowerChar(b) == 'k') || (b == '\U{212a}' && LowerChar(a) == 'k')
            || (a == '\U{17f}' && LowerChar(b) == 's') || (b == '\U{17f}' && LowerChar(a) == 's')
  {}

  /** Unicode white space, as unicode.IsSpace defines it. */
  predicate IsSpace(c: char) {
    || '\t' <= c <= '\r'
    || c == ' '
    || c == '\U{85}' || c == '\U{a0}' || c == '\U{1680}'
    || '\U{2000}' <= c <= '\U{200a}'
    || c == '\U{2028}' || c == '\U{2029}' || c == '\U{202f}' || c == '\U{205f}' || c == '\U{3000}'
  }

  /** The first index from i on that does not hold white space. */
  function SkipSpaces(s: string, i: nat): (k: nat)
    requires i <= |s|
    ensures i <= k <= |s| && (k < |s| ==> !IsSpace(s[k]))
    ensures forall j :: i <= j < k ==> IsSpace(s[j])
    decreases |s| - i
  {
    if i < |s| && IsSpace(s[i]) then SkipSpaces(s, i + 1) else i
  }

  /** The same from the end: what is left of the first n characters. */
  function SkipSpacesBack(s: string, n: nat): (k: nat)
    requires n <= |s|
    ensures k <= n && (k > 0 ==> !IsSpace(s[k - 1]))
    ensures forall j :: k <= j < n ==> IsSpace(s[j])
  {
    if n > 0 && IsSpace(s[n - 1]) then SkipSpacesBack(s, n - 1) else n
  }

  function TrimLeft(s: string): (r: string) {
    s[SkipSpaces(s, 0)..]
  }

  function TrimRight(s: string): (r: string) {
    s[..SkipSpacesBack(s, |s|)]
  }

  function TrimSpace(s: string): string {
    TrimRight(TrimLeft(s))
  }

  /** Only white space is taken away, and none is left at either end. */
  lemma {:induction false} TrimSpaceExactly(s: string, t: string)
    ensures t == TrimSpace(s) <==>
            && (t == "" || (!IsSpace(t[0]) && !IsSpace(t[|t| - 1])))
            && exists a: nat, b: nat :: IsTrimmed(s, t, a, b)
  {
    var i := SkipSpaces(s, 0);
    var n := SkipSpacesBack(s[i..], |s| - i);
    assert TrimSpace(s) == s[i..][..n] == s[i..i + n];
    assert forall k :: i + n <= k < |s| ==> s[k] == s[i..][k - i];
    assert IsTrimmed(s, TrimSpace(s), i, i + n);
    if t == "" || (!IsSpace(t[0]) && !IsSpace(t[|t| - 1])) {
      forall a: nat, b: nat | IsTrimmed(s, t, a, b)
        ensures t == TrimSpace(s)
      {
        OneTrimming(s, t, a, b, TrimSpace(s), i, i + n);
      }
    }
  }

  /** The text from a to b is t, and all outside is white space. */
  ghost predicate IsTrimmed(s: string, t: string, a: nat, b: nat) {
    a <= b <= |s| && t == s[a..b] && forall k :: 0 <= k < a || b <= k < |s| ==> IsSpace(s[k])
  }

  lemma {:induction false} OneTrimming(s: string, t: string, a: nat, b: nat, u: string, c: nat, d: nat)
    requires IsTrimmed(s, t, a, b) && IsTrimmed(s, u, c, d)
    requires t == "" || (!IsSpace(t[0]) && !IsSpace(t[|t| - 1]))
    requires u == "" || (!IsSpace(u[0]) && !IsSpace(u[|u| - 1]))
    ensures t == u
  {
    if t != "" {
      assert t[0] == s[a] && t[|t| - 1] == s[b - 1];
    }
    if u != "" {
      assert u[0] == s[c] && u[|u| - 1] == s[d - 1];
    }
  }

  // ---- decimal numerals ----

  function Itoa(n: nat): (r: string)
    ensures r != [] && forall c :: c in r ==> '0' <= c <= '9'
  {
    if n < 10 then ["0123456789"[n]] else Itoa(n / 10) + ["0123456789"[n % 10]]
  }

  lemma {:induction false} ItoaInjective(m: nat, n: nat)
    requires Itoa(m) == Itoa(n)
    ensures m == n
  {
    var a, b := Itoa(m), Itoa(n);
    assert a[|a| - 1] == "0123456789"[m % 10];
    assert b[|b| - 1] == "0123456789"[n % 10];
    assert m % 10 == n % 10;
    if m >= 10 && n >= 10 {
      assert a[..|a| - 1] == Itoa(m / 10) && b[..|b| - 1] == Itoa(n / 10);
      ItoaInjective(m / 10, n / 10);
    }
  }

  // ---- lexicographic order ----

  predicate LexLess(a: string, b: string) {
    b != [] && (a == [] || a[0] < b[0] || (a[0] == b[0] && LexLess(a[1..], b[1..])))
  }

  lemma {:induction false} LexTotal(a: string, b: string)
    ensures a == b || LexLess(a, b) || LexLess(b, a)
  {
    if a != [] && b != [] && a[0] == b[0] {
      LexTotal(a[1..], b[1..]);
      assert a == [a[0]] + a[1..] && b == [b[0]] + b[1..];
    }
  }

  /** Where the two part, one is at its end or has the smaller character. */
  lemma {:induction false} LexLessExactly(a: string, b: string)
    ensures LexLess(a, b) <==>
            exists k :: 0 <= k <= |a| && k < |b| && a[..k] == b[..k] && (k == |a| || a[k] < b[k])
  {
    if b != [] && a != [] && a[0] == b[0] {
      LexLessExactly(a[1..], b[1..]);
      if k :| 0 <= k <= |a[1..]| && k < |b[1..]| && a[1..][..k] == b[1..][..k]
              && (k == |a[1..]| || a[1..][k] < b[1..][k]) {
        assert a[..k + 1] == [a[0]] + a[1..][..k] && b[..k + 1] == [b[0]] + b[1..][..k];
      }
      if k :| 0 <= k <= |a| && k < |b| && a[..k] == b[..k] && (k == |a| || a[k] < b[k]) {
        assert a[1..][..k - 1] == a[..k][1..] && b[1..][..k - 1] == b[..k][1..];
      }
    } else if b != [] {
      assert a[..0] == b[..0];
      if k :| 0 < k <= |a| && k < |b| && a[..k] == b[..k] {
        assert a[..k][0] == b[..k][0];
      }
    }
  }

  lemma {:induction false} LexIrreflexive(a: string)
    ensures !LexLess(a, a)
  {
    if a != [] { LexIrreflexive(a[1..]); }
  }

  lemma {:induction false} LexTransitive(a: string, b: string, c: string)
    requires LexLess(a, b) && LexLess(b, c)
    ensures LexLess(a, c)
  {
    if a != [] && a[0] == b[0] == c[0] {
      LexTransitive(a[1..], b[1..], c[1..]);
    }
  }

  lemma {:induction false} LexStrictTotal(s: set<string>)
    ensures StrictTotalOn(LexLess, s)
  {
    forall x | x in s ensures !LexLess(x, x) { LexIrreflexive(x); }
    forall x, y | x in s && y in s && x != y ensures LexLess(x, y) || LexLess(y, x) { LexTotal(x, y); }
    forall x, y, z | x in s && y in s && z in s && LexLess(x, y) && LexLess(y, z) ensures LexLess(x, z) {
      LexTransitive(x, y, z);
    }
  }
}
