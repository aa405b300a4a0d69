/**
 The query parameters of a request: percent-encoding that leaves what is already encoded alone, and
 their addition to the text of a URL.
 */
module Query {
  import opened Text

  type Bytes = seq<Byte>

  const AMP: Byte := '&' as Byte
  const EQUAL: Byte := '=' as Byte
  const HASH: Byte := '#' as Byte
  const QUESTION: Byte := '?' as Byte
  const PERCENT: Byte := '%' as Byte

  predicate IsDigit(b: Byte) {
    '0' as Byte <= b <= '9' as Byte
  }

  predicate IsLetter(b: Byte) {
    'a' as Byte <= b <= 'z' as Byte || 'A' as Byte <= b <= 'Z' as Byte
  }

  /** The bytes that stand for themselves in a query: - . _ ~ ! $ ' ( ) * , ; : @ / ? + and the alphanumerics. */
  predicate Safe(b: Byte) {
    || IsLetter(b)
    || b == '!' as Byte || b == '$' as Byte
    || '\'' as Byte <= b <= ';' as Byte
    || b == '?' as Byte || b == '@' as Byte || b == '_' as Byte || b == '~' as Byte
  }

  predicate IsHex(b: Byte) {
    IsDigit(b) || 'a' as Byte <= b <= 'f' as Byte || 'A' as Byte <= b <= 'F' as Byte
  }

  function HexValue(b: Byte): (r: Byte)
    requires IsHex(b)
    ensures r < 16
  {
    if IsDigit(b) then b - '0' as Byte else if b >= 'a' as Byte then b - 'a' as Byte + 10 else b - 'A' as Byte + 10
  }

  function HexDigit(n: Byte): (r: Byte)
    requires n < 16
    ensures IsHex(r) && HexValue(r) == n && !('a' as Byte <= r <= 'f' as Byte)
  {
    if n < 10 then '0' as Byte + n else 'A' as Byte + n - 10
  }

  /** The text begins with an encoded byte. */
  predicate StartsEncoded(s: Bytes) {
    |s| > 2 && s[0] == PERCENT && IsHex(s[1]) && IsHex(s[2])
  }

  /** What is written for the first byte. */
  function Unit(s: Bytes): Bytes
    requires s != []
  {
    if Safe(s[0]) || StartsEncoded(s) then [s[0]] else [PERCENT, HexDigit(s[0] / 16), HexDigit(s[0] % 16)]
  }

  function Escape(s: Bytes): Bytes {
    if s == [] then [] else Unit(s) + Escape(s[1..])
  }

  method QueryEscape(s: Bytes) returns (out: Bytes)
    ensures out == Escape(s)
  {
    out := [];
    for i := 0 to |s|
      invariant Escape(s) == out + Escape(s[i..])
    {
      var c := s[i];
      EscapeFrom(s, i);
      var unit;
      if Safe(c) || (c == PERCENT && i + 2 < |s| && IsHex(s[i + 1]) && IsHex(s[i + 2])) {
        unit := [c];
      } else {
        unit := [PERCENT, HexDigit(c / 16), HexDigit(c % 16)];
      }
      Regroup(out, unit, Escape(s[i + 1..]));
      out := out + unit;
    }
    assert s[|s|..] == [];
  }

  lemma {:induction false} Regroup(a: Bytes, b: Bytes, c: Bytes)
    ensures a + (b + c) == a + b + c
  {}

  lemma {:induction false} EscapeFrom(s: Bytes, i: nat)
    requires i < |s|
    ensures Escape(s[i..]) == Unit(s[i..]) + Escape(s[i + 1..])
    ensures s[i..][0] == s[i]
    ensures StartsEncoded(s[i..]) <==> s[i] == PERCENT && i + 2 < |s| && IsHex(s[i + 1]) && IsHex(s[i + 2])
  {
    assert s[i..][1..] == s[i + 1..];
  }

  /** Percent-decoding that takes a percent sign not followed by two digits as it is. */
  function Decode(s: Bytes): Bytes {
    if s == [] then []
    else if StartsEncoded(s) then [16 * HexValue(s[1]) + HexValue(s[2])] + Decode(s[3..])
    else [s[0]] + Decode(s[1..])
  }

  lemma {:induction false} EscapeSafe(b: Byte, t: Bytes)
    requires Safe(b)
    ensures Escape([b] + t) == [b] + Escape(t)
    ensures Decode([b] + t) == [b] + Decode(t)
  {
    assert ([b] + t)[1..] == t;
  }

  lemma {:induction false} EscapeEncoded(h: Byte, l: Byte, t: Bytes)
    requires IsHex(h) && IsHex(l)
    ensures Escape([PERCENT, h, l] + t) == [PERCENT, h, l] + Escape(t)
    ensures Decode([PERCENT, h, l] + t) == [16 * HexValue(h) + HexValue(l)] + Decode(t)
  {
    var s := [PERCENT, h, l] + t;
    assert s[1..] == [h] + ([l] + t);
    assert s[3..] == t;
    EscapeSafe(h, [l] + t);
    EscapeSafe(l, t);
  }

  /** How a text that is not empty begins: with an encoded byte, a safe one, or one that gets encoded. */
  lemma {:induction false} EscapeBegins(s: Bytes)
    requires s != []
    ensures StartsEncoded(s) ==>
              Escape(s) == [PERCENT, s[1], s[2]] + Escape(s[3..]) &&
              Decode(s) == [16 * HexValue(s[1]) + HexValue(s[2])] + Decode(s[3..])
    ensures Safe(s[0]) ==> Escape(s) == [s[0]] + Escape(s[1..]) && Decode(s) == [s[0]] + Decode(s[1..])
    ensures !StartsEncoded(s) && !Safe(s[0]) ==>
              Escape(s) == [PERCENT, HexDigit(s[0] / 16), HexDigit(s[0] % 16)] + Escape(s[1..]) &&
              Decode(s) == [s[0]] + Decode(s[1..])
  {
    if StartsEncoded(s) {
      assert s == [PERCENT, s[1], s[2]] + s[3..];
      EscapeEncoded(s[1], s[2], s[3..]);
    }
  }

  /** Escaping does not change what the text decodes to. */
  lemma {:induction false} EscapeKeepsMeaning(s: Bytes)
    ensures Decode(Escape(s)) == Decode(s)
    decreases |s|
  {
    if s != [] {
      EscapeBegins(s);
      if StartsEncoded(s) {
        EscapeKeepsMeaning(s[3..]);
        EscapeEncoded(s[1], s[2], Escape(s[3..]));
      } else if Safe(s[0]) {
        EscapeKeepsMeaning(s[1..]);
        EscapeSafe(s[0], Escape(s[1..]));
      } else {
        EscapeKeepsMeaning(s[1..]);
        EscapeEncoded(HexDigit(s[0] / 16), HexDigit(s[0] % 16), Escape(s[1..]));
      }
    }
  }

  /** Text that was escaped is not changed by escaping it again. */
  lemma {:induction false} EscapeIsIdempotent(s: Bytes)
    ensures Escape(Escape(s)) == Escape(s)
    decreases |s|
  {
    if s != [] {
      EscapeBegins(s);
      if StartsEncoded(s) {
        EscapeIsIdempotent(s[3..]);
        EscapeEncoded(s[1], s[2], Escape(s[3..]));
      } else if Safe(s[0]) {
        EscapeIsIdempotent(s[1..]);
        EscapeSafe(s[0], Escape(s[1..]));
      } else {
        EscapeIsIdempotent(s[1..]);
        EscapeEncoded(HexDigit(s[0] / 16), HexDigit(s[0] % 16), Escape(s[1..]));
      }
    }
  }

  /** What is escaped has none of the characters that divide a query. */
  lemma {:induction false} EscapedIsOpaque(s: Bytes)
    ensures forall b :: b in Escape(s) ==> Safe(b) || b == PERCENT
    ensures AMP !in Escape(s) && EQUAL !in Escape(s) && HASH !in Escape(s)
    ensures s != [] ==> Escape(s) != []
    decreases |s|
  {
    if s != [] {
      EscapedIsOpaque(s[1..]);
    }
  }

  /** The bytes a query may have that divide nothing. */
  predicate Allowed(b: Byte) {
    || 48 <= b <= 57 || 65 <= b <= 90 || 97 <= b <= 122
    || b as char in "-._~!$'()*,;:@/?+"
  }

  predicate IsHexDigit(b: Byte) {
    b as char in "0123456789abcdefABCDEF"
  }

  lemma {:induction false} HexExactly(b: Byte)
    ensures IsHex(b) <==> IsHexDigit(b)
  {
    assert b == b as char as Byte;
  }

  lemma {:induction false} SafeExactly(b: Byte)
    ensures Safe(b) <==> Allowed(b)
  {
    assert b == b as char as Byte;
  }

  /** The byte is an allowed one, or a percent sign that begins an encoded one. */
  predicate FitsAt(s: Bytes, i: nat)
    requires i < |s|
  {
    Allowed(s[i]) || (s[i] == PERCENT && i + 2 < |s| && IsHexDigit(s[i + 1]) && IsHexDigit(s[i + 2]))
  }

  predicate WellFormed(s: Bytes) {
    forall i :: 0 <= i < |s| ==> FitsAt(s, i)
  }

  lemma {:induction false} WellFormedAfter(u: Bytes, t: Bytes)
    requires WellFormed(u) && WellFormed(t)
    ensures WellFormed(u + t)
  {
    forall i | 0 <= i < |u + t|
      ensures FitsAt(u + t, i)
    {
      assert if i < |u| then FitsAt(u, i) else FitsAt(t, i - |u|);
    }
  }

  lemma {:induction false} UnitIsWellFormed(h: Byte, l: Byte)
    requires IsHex(h) && IsHex(l)
    ensures WellFormed([PERCENT, h, l])
  {
    var s := [PERCENT, h, l];
    HexExactly(h);
    HexExactly(l);
    assert FitsAt(s, 0) && FitsAt(s, 1) && FitsAt(s, 2);
  }

  lemma {:induction false} RestIsWellFormed(s: Bytes, n: nat)
    requires WellFormed(s) && n <= |s|
    ensures WellFormed(s[n..])
  {
    forall i | 0 <= i < |s[n..]|
      ensures FitsAt(s[n..], i)
    {
      assert FitsAt(s, n + i);
    }
  }

  /** What is written for the first bytes, and how many they are. */
  lemma {:induction false} EscapeTakes(s: Bytes) returns (unit: Bytes, n: nat)
    requires s != []
    ensures 0 < n <= |s| && Escape(s) == unit + Escape(s[n..]) && WellFormed(unit)
    ensures WellFormed(s) ==> unit == s[..n]
  {
    EscapeBegins(s);
    SafeExactly(s[0]);
    if |s| > 2 {
      HexExactly(s[1]);
      HexExactly(s[2]);
    }
    if StartsEncoded(s) {
      unit, n := [PERCENT, s[1], s[2]], 3;
      UnitIsWellFormed(s[1], s[2]);
    } else if Safe(s[0]) {
      unit, n := [s[0]], 1;
    } else {
      unit, n := [PERCENT, HexDigit(s[0] / 16), HexDigit(s[0] % 16)], 1;
      UnitIsWellFormed(unit[1], unit[2]);
      assert WellFormed(s) ==> FitsAt(s, 0);
    }
  }

  /** Whatever is escaped is well-formed, and what is well-formed is left as it is. */
  lemma {:induction false} EscapedIsWellFormed(s: Bytes)
    ensures WellFormed(Escape(s))
    ensures WellFormed(s) <==> Escape(s) == s
    decreases |s|
  {
    if s != [] {
      var unit, n := EscapeTakes(s);
      EscapedIsWellFormed(s[n..]);
      WellFormedAfter(unit, Escape(s[n..]));
      if WellFormed(s) {
        RestIsWellFormed(s, n);
        assert s == s[..n] + s[n..];
      }
    }
  }

  // ---------------------------------------------------------------- adding parameters

  datatype KV = KV(key: Bytes, value: Bytes, disabled: bool)

  function Field(kv: KV): Bytes {
    Escape(kv.key) + [EQUAL] + Escape(kv.value)
  }

  /** The parameters that are sent. */
  function Enabled(kvs: seq<KV>): seq<KV> {
    if kvs == [] then []
    else
      var kv := kvs[|kvs| - 1];
      Enabled(kvs[..|kvs| - 1]) + if kv.disabled || kv.key == [] then [] else [kv]
  }

  /** One by one, in order: all but those that are disabled or have no key. */
  lemma {:induction false} EnabledExactly(kvs: seq<KV>, more: seq<KV>)
    ensures Enabled(kvs + more) == Enabled(kvs) + Enabled(more)
    ensures |kvs| == 1 ==> Enabled(kvs) == if kvs[0].disabled || kvs[0].key == [] then [] else kvs
    decreases |more|
  {
    if more == [] {
      assert kvs + more == kvs;
    } else {
      assert (kvs + more)[..|kvs + more| - 1] == kvs + more[..|more| - 1];
      EnabledExactly(kvs, more[..|more| - 1]);
    }
    if |kvs| == 1 {
      assert kvs[..0] == [] && kvs == [kvs[0]];
    }
  }

  function FieldsOf(kvs: seq<KV>): (r: seq<Bytes>)
    ensures |r| == |kvs| && forall i :: 0 <= i < |kvs| ==> r[i] == Field(kvs[i])
  {
    seq(|kvs|, i requires 0 <= i < |kvs| => Field(kvs[i]))
  }

  /** A URL up to its fragment. */
  function Base(u: Bytes): (r: Bytes)
    ensures r <= u
  {
    var i := IndexOf(u, HASH);
    if i < 0 then u else u[..i]
  }

  function Fragment(u: Bytes): Bytes {
    u[|Base(u)|..]
  }

  function Separator(base: Bytes): Bytes {
    if QUESTION !in base then [QUESTION]
    else if base[|base| - 1] == QUESTION || base[|base| - 1] == AMP then []
    else [AMP]
  }

  function Appended(u: Bytes, fields: seq<Bytes>): Bytes {
    if fields == [] then u else Base(u) + Separator(Base(u)) + Join(fields, [AMP]) + Fragment(u)
  }

  method AppendQuery(u: Bytes, kvs: seq<KV>) returns (r: Bytes)
    ensures r == Appended(u, FieldsOf(Enabled(kvs)))
  {
    var parts: seq<Bytes> := [];
    for i := 0 to |kvs|
      invariant parts == FieldsOf(Enabled(kvs[..i]))
    {
      assert kvs[..i + 1][..i] == kvs[..i];
      if kvs[i].disabled || kvs[i].key == [] {
        continue;
      }
      var k := QueryEscape(kvs[i].key);
      var v := QueryEscape(kvs[i].value);
      parts := parts + [k + [EQUAL] + v];
    }
    assert kvs[..|kvs|] == kvs;
    if |parts| == 0 {
      return u;
    }
    var base, frag := u, [];
    var i := IndexOf(u, HASH);
    if i >= 0 {
      base, frag := u[..i], u[i..];
    }
    var sep := [QUESTION];
    if QUESTION in base {
      sep := [AMP];
      if base[|base| - 1] == QUESTION || base[|base| - 1] == AMP {
        sep := [];
      }
    }
    return base + sep + Join(parts, [AMP]) + frag;
  }

  // ---------------------------------------------------------------- reading them back

  /** The query of a URL without its fragment: what follows the first question mark. */
  function QueryText(base: Bytes): Bytes {
    var i := IndexOf(base, QUESTION);
    if i < 0 then [] else base[i + 1..]
  }

  function Whole(field: Bytes): seq<Bytes> {
    if field == [] then [] else [field]
  }

  /** The fields of a query, empty ones left out. */
  function Fields(q: Bytes): seq<Bytes> {
    FieldsFrom(q, [])
  }

  /** The fields, when one has already begun. */
  function FieldsFrom(q: Bytes, begun: Bytes): seq<Bytes> {
    if q == [] then Whole(begun)
    else if q[0] == AMP then Whole(begun) + FieldsFrom(q[1..], [])
    else FieldsFrom(q[1..], begun + [q[0]])
  }

  /** A field's name and value, decoded. */
  function Pair(field: Bytes): (Bytes, Bytes) {
    var i := IndexOf(field, EQUAL);
    if i < 0 then (Decode(field), []) else (Decode(field[..i]), Decode(field[i + 1..]))
  }

  function Parameters(u: Bytes): (r: seq<(Bytes, Bytes)>)
    ensures |r| == |Fields(QueryText(Base(u)))|
    ensures forall i :: 0 <= i < |r| ==> r[i] == Pair(Fields(QueryText(Base(u)))[i])
  {
    var fields := Fields(QueryText(Base(u)));
    seq(|fields|, i requires 0 <= i < |fields| => Pair(fields[i]))
  }

  /** The decoded names and values of the parameters. */
  function Meant(kvs: seq<KV>): (r: seq<(Bytes, Bytes)>)
    ensures |r| == |kvs| && forall i :: 0 <= i < |kvs| ==> r[i] == (Decode(kvs[i].key), Decode(kvs[i].value))
  {
    seq(|kvs|, i requires 0 <= i < |kvs| => (Decode(kvs[i].key), Decode(kvs[i].value)))
  }

  lemma {:induction false} FieldMeans(kv: KV)
    ensures Pair(Field(kv)) == (Decode(kv.key), Decode(kv.value))
  {
    EscapedIsOpaque(kv.key);
    var f, i := Field(kv), |Escape(kv.key)|;
    assert f[..i] == Escape(kv.key) && f[i + 1..] == Escape(kv.value);
    IndexOfIs(f, EQUAL, i);
    EscapeKeepsMeaning(kv.key);
    EscapeKeepsMeaning(kv.value);
  }

  lemma {:induction false} IndexInPrefix(a: Bytes, b: Bytes, c: Byte)
    ensures c in a ==> IndexOf(a + b, c) == IndexOf(a, c)
    ensures c !in a && b != [] && b[0] == c ==> IndexOf(a + b, c) == |a|
    ensures c !in a && c !in b ==> IndexOf(a + b, c) < 0
  {
    if c in a {
      var i := IndexOf(a, c);
      assert (a + b)[..i] == a[..i];
      IndexOfIs(a + b, c, i);
    } else if b != [] && b[0] == c {
      assert (a + b)[..|a|] == a;
      IndexOfIs(a + b, c, |a|);
    }
  }

  /** A text without an ampersand is one field. */
  lemma {:induction false} OneField(p: Bytes, begun: Bytes)
    requires AMP !in p
    ensures FieldsFrom(p, begun) == Whole(begun + p)
    decreases |p|
  {
    if p == [] {
      assert begun + p == begun;
    } else {
      OneField(p[1..], begun + [p[0]]);
      assert begun + [p[0]] + p[1..] == begun + p;
    }
  }

  /** Texts divided by an ampersand have their own fields. */
  lemma {:induction false} FieldsDivided(a: Bytes, b: Bytes, begun: Bytes)
    ensures FieldsFrom(a + [AMP] + b, begun) == FieldsFrom(a, begun) + Fields(b)
    decreases |a|
  {
    if a == [] {
      assert (a + [AMP] + b)[1..] == b;
    } else {
      assert (a + [AMP] + b)[1..] == a[1..] + [AMP] + b;
      if a[0] == AMP {
        FieldsDivided(a[1..], b, []);
      } else {
        FieldsDivided(a[1..], b, begun + [a[0]]);
      }
    }
  }

  lemma {:induction false} CountFrom(q: Bytes, begun: Bytes, begun': Bytes)
    requires begun != [] && begun' != []
    ensures |FieldsFrom(q, begun)| == |FieldsFrom(q, begun')|
    decreases |q|
  {
    if q != [] && q[0] != AMP {
      CountFrom(q[1..], begun + [q[0]], begun' + [q[0]]);
    }
  }

  /** Texts put together without one share a field. */
  lemma {:induction false} FieldsGlued(a: Bytes, b: Bytes, begun: Bytes)
    requires if a == [] then begun != [] else a[|a| - 1] != AMP
    requires b != [] && b[0] != AMP
    ensures |FieldsFrom(a + b, begun)| == |FieldsFrom(a, begun)| + |Fields(b)| - 1
    decreases |a|
  {
    if a == [] {
      assert a + b == b;
      CountFrom(b[1..], begun + [b[0]], [b[0]]);
      assert [] + [b[0]] == [b[0]];
    } else {
      assert (a + b)[1..] == a[1..] + b;
      if a[0] == AMP {
        FieldsGlued(a[1..], b, []);
      } else {
        FieldsGlued(a[1..], b, begun + [a[0]]);
      }
    }
  }

  ghost predicate AreFields(fields: seq<Bytes>) {
    forall i :: 0 <= i < |fields| ==> fields[i] != [] && AMP !in fields[i] && HASH !in fields[i]
  }

  lemma {:induction false} FieldsOfJoin(fields: seq<Bytes>)
    requires AreFields(fields)
    ensures Fields(Join(fields, [AMP])) == fields
    ensures HASH !in Join(fields, [AMP])
    ensures fields != [] ==> Join(fields, [AMP]) != [] && Join(fields, [AMP])[0] == fields[0][0]
    decreases |fields|
  {
    if fields != [] {
      FieldAlone(fields[0]);
    }
    if |fields| > 1 {
      FieldsOfJoin(fields[1..]);
      FieldsDivided(fields[0], Join(fields[1..], [AMP]), []);
    }
  }

  lemma {:induction false} FieldAlone(field: Bytes)
    requires field != [] && AMP !in field
    ensures Fields(field) == [field]
  {
    OneField(field, []);
    assert [] + field == field;
  }

  lemma {:induction false} AllAreFields(kvs: seq<KV>)
    ensures AreFields(FieldsOf(Enabled(kvs)))
    decreases |kvs|
  {
    if kvs != [] {
      AllAreFields(kvs[..|kvs| - 1]);
      var kv := kvs[|kvs| - 1];
      EscapedIsOpaque(kv.key);
      EscapedIsOpaque(kv.value);
    }
  }

  /** The fragment is still the last thing, and what precedes it is what the parameters were added to. */
  lemma {:induction false} FragmentStaysLast(u: Bytes, fields: seq<Bytes>)
    requires AreFields(fields)
    ensures Fragment(Appended(u, fields)) == Fragment(u)
    ensures fields != [] ==> Base(Appended(u, fields)) == Base(u) + Separator(Base(u)) + Join(fields, [AMP])
  {
    FieldsOfJoin(fields);
    if fields != [] {
      var a := Base(u) + Separator(Base(u)) + Join(fields, [AMP]);
      assert HASH !in Base(u);
      assert HASH !in a;
      assert Fragment(u) == [] || Fragment(u)[0] == HASH;
      IndexInPrefix(a, Fragment(u), HASH);
      assert (a + Fragment(u))[..|a|] == a;
    }
  }

  /** The query does not begin where its text ends, and that text ends with a question mark. */
  predicate EndsOpen(base: Bytes) {
    QueryText(base) != [] && QueryText(base)[|QueryText(base)| - 1] == QUESTION
  }

  lemma {:induction false} QueryTextExtended(base: Bytes, more: Bytes)
    requires QUESTION in base
    ensures QueryText(base + more) == QueryText(base) + more
  {
    IndexInPrefix(base, more, QUESTION);
  }

  lemma {:induction false} QueryTextBegun(base: Bytes, more: Bytes)
    requires QUESTION !in base
    ensures QueryText(base) == [] && QueryText(base + ([QUESTION] + more)) == more
  {
    IndexInPrefix(base, [QUESTION] + more, QUESTION);
  }

  lemma {:induction false} QueryTextEnds(base: Bytes)
    requires QUESTION in base
    ensures QueryText(base) == [] ==> base[|base| - 1] == QUESTION
    ensures QueryText(base) != [] ==> QueryText(base)[|QueryText(base)| - 1] == base[|base| - 1]
  {}

  /** What is read from a base and a text put after it. */
  lemma {:induction false} FieldsAfter(base: Bytes, more: Bytes)
    requires more != [] && more[0] != AMP
    ensures !EndsOpen(base) ==>
              Fields(QueryText(base + Separator(base) + more)) == Fields(QueryText(base)) + Fields(more)
    ensures EndsOpen(base) ==>
              |Fields(QueryText(base + Separator(base) + more))| == |Fields(QueryText(base))| + |Fields(more)| - 1
  {
    assert base + Separator(base) + more == base + (Separator(base) + more);
    if QUESTION !in base {
      QueryTextBegun(base, more);
      assert Fields([]) == [];
    } else {
      QueryTextExtended(base, Separator(base) + more);
      QueryTextEnds(base);
      QueryAfter(QueryText(base), Separator(base), more);
    }
  }

  lemma {:induction false} QueryAfter(q: Bytes, sep: Bytes, more: Bytes)
    requires more != [] && more[0] != AMP
    requires sep == if q == [] || q[|q| - 1] == QUESTION || q[|q| - 1] == AMP then [] else [AMP]
    ensures q == [] || q[|q| - 1] != QUESTION ==> Fields(q + (sep + more)) == Fields(q) + Fields(more)
    ensures q != [] && q[|q| - 1] == QUESTION ==> |Fields(q + (sep + more))| == |Fields(q)| + |Fields(more)| - 1
  {
    if q == [] {
      assert q + (sep + more) == more;
    } else if q[|q| - 1] == QUESTION {
      assert sep + more == more;
      FieldsGlued(q, more, []);
    } else if q[|q| - 1] == AMP {
      var q' := q[..|q| - 1];
      assert q == q' + [AMP] + [] && q + (sep + more) == q' + [AMP] + more;
      FieldsDivided(q', [], []);
      FieldsDivided(q', more, []);
    } else {
      assert q + (sep + more) == q + [AMP] + more;
      FieldsDivided(q, more, []);
    }
  }

  /**
   The URL then has its parameters followed by those added, in order, and keeps its fragment, exactly
   unless its query was not empty and ended with a question mark: then the first parameter added
   becomes part of the last one there was.
   */
  lemma {:induction false} AppendedReadsBack(u: Bytes, kvs: seq<KV>)
    ensures Fragment(Appended(u, FieldsOf(Enabled(kvs)))) == Fragment(u)
    ensures Parameters(Appended(u, FieldsOf(Enabled(kvs)))) == Parameters(u) + Meant(Enabled(kvs))
            <==> Enabled(kvs) == [] || !EndsOpen(Base(u))
  {
    var fields := FieldsOf(Enabled(kvs));
    AllAreFields(kvs);
    FragmentStaysLast(u, fields);
    FieldsOfJoin(fields);
    if fields != [] {
      FieldsAfter(Base(u), Join(fields, [AMP]));
      if !EndsOpen(Base(u)) {
        Decoded(u, Appended(u, fields), Enabled(kvs));
      }
    }
  }

  /** Added to "??", a parameter disappears into the question mark that is there. */
  lemma {:induction false} OpenQueryMerges()
    ensures var u, kv := [QUESTION, QUESTION], KV([65], [66], false);
            Parameters(Appended(u, FieldsOf(Enabled([kv])))) != Parameters(u) + Meant(Enabled([kv]))
  {
    var u, kv := [QUESTION, QUESTION], KV([65], [66], false);
    assert IndexOf(u, HASH) < 0 && IndexOf(u, QUESTION) == 0;
    assert QueryText(Base(u)) == [QUESTION];
    assert [kv][..0] == [];
    assert Enabled([kv]) == Enabled([]) + [kv];
    AppendedReadsBack(u, [kv]);
  }

  lemma {:induction false} Decoded(u: Bytes, r: Bytes, kvs: seq<KV>)
    requires Fields(QueryText(Base(r))) == Fields(QueryText(Base(u))) + FieldsOf(kvs)
    ensures Parameters(r) == Parameters(u) + Meant(kvs)
  {
    forall i | 0 <= i < |kvs|
      ensures Pair(FieldsOf(kvs)[i]) == Meant(kvs)[i]
    {
      FieldMeans(kvs[i]);
    }
    PairsOf(Fields(QueryText(Base(u))), FieldsOf(kvs), Parameters(u), Meant(kvs), Parameters(r));
  }

  lemma {:induction false} PairsOf(a: seq<Bytes>, b: seq<Bytes>, p: seq<(Bytes, Bytes)>, q: seq<(Bytes, Bytes)>,
                                   r: seq<(Bytes, Bytes)>)
    requires |p| == |a| && forall i :: 0 <= i < |a| ==> p[i] == Pair(a[i])
    requires |q| == |b| && forall i :: 0 <= i < |b| ==> Pair(b[i]) == q[i]
    requires |r| == |a + b| && forall i :: 0 <= i < |r| ==> r[i] == Pair((a + b)[i])
    ensures r == p + q
  {}
}
