/**
 Digest authentication (RFC 7616): the Authorization header that answers a challenge, and the reader
 of comma-separated parameters that takes it, and the challenge, apart.
 */
module Digest {
  import opened Text

  // ---------------------------------------------------------------- reading

  predicate Skipped(c: char) {
    c == ' ' || c == ',' || c == '\t'
  }

  function SkipSeparators(s: string): (r: string)
    ensures |r| <= |s|
  {
    if s != [] && Skipped(s[0]) then SkipSeparators(s[1..]) else s
  }

  /** The text up to the closing quote, with escapes undone, and what follows that quote. */
  function Unquote(s: string): (r: (string, string))
    ensures |r.1| <= |s|
  {
    if s == [] then ([], [])
    else if s[0] == '"' then ([], s[1..])
    else if s[0] == '\\' && |s| > 1 then
      var r := Unquote(s[2..]);
      ([s[1]] + r.0, r.1)
    else
      var r := Unquote(s[1..]);
      ([s[0]] + r.0, r.1)
  }

  /** The value at the head of a text, quoted or not, and the rest. */
  function Value(s: string): (r: (string, string))
    ensures |r.1| <= |s|
  {
    if s != [] && s[0] == '"' then Unquote(s[1..])
    else
      var end := IndexOf(s, ',');
      if end < 0 then (TrimSpace(s), []) else (TrimSpace(s[..end]), s[end..])
  }

  /** A name, its value, and what follows them. */
  datatype Read = Nothing | Read(name: string, value: string, rest: string)

  function ParamName(s: string): string {
    Lower(TrimSpace(s))
  }

  /** The parameter at the head of a text. */
  function ReadOne(s: string): (r: Read)
    ensures r.Read? ==> |r.rest| < |s|
  {
    var t := SkipSeparators(s);
    var eq := IndexOf(t, '=');
    if eq < 0 then Nothing else ReadAt(t, eq)
  }

  /** The name up to the equals sign, and its value. */
  function ReadAt(t: string, eq: nat): (r: Read)
    requires eq < |t|
    ensures r.Read? && |r.rest| < |t|
  {
    var v := Value(t[eq + 1..]);
    Read(ParamName(t[..eq]), v.0, v.1)
  }

  /** The parameters of a text, after those found before it. */
  function ParseFrom(s: string, found: map<string, string>): map<string, string>
    decreases |s|
  {
    var r := ReadOne(s);
    if r.Nothing? then found else ParseFrom(r.rest, found[r.name := r.value])
  }

  function Parse(s: string): map<string, string> {
    ParseFrom(s, map[])
  }

  /** Reads the parameters. It ends on every text, since each round goes past an equals sign. */
  method ParseKV(text: string) returns (out: map<string, string>)
    ensures out == Parse(text)
  {
    var s := text;
    out := map[];
    while |s| > 0
      invariant ParseFrom(s, out) == Parse(text)
      decreases |s|
    {
      s := SkipSeparators(s);
      var eq := IndexOf(s, '=');
      if eq < 0 {
        return;
      }
      var r := ReadParameter(s, eq);
      s, out := r.rest, out[r.name := r.value];
    }
  }

  method ReadParameter(s: string, eq: nat) returns (r: Read)
    requires eq < |s|
    ensures r == ReadAt(s, eq)
  {
    var k := ParamName(s[..eq]);
    var v := ReadValue(s[eq + 1..]);
    return Read(k, v.0, v.1);
  }

  method ReadValue(s: string) returns (r: (string, string))
    ensures r == Value(s)
  {
    if |s| > 0 && s[0] == '"' {
      var v, rest := ReadQuoted(s);
      return (v, rest);
    }
    var end := IndexOf(s, ',');
    if end < 0 {
      end := |s|;
    }
    assert s[..|s|] == s && s[|s|..] == [];
    return (TrimSpace(s[..end]), s[end..]);
  }

  method ReadQuoted(s: string) returns (v: string, rest: string)
    requires |s| > 0 && s[0] == '"'
    ensures (v, rest) == Unquote(s[1..])
  {
    var end := 1;
    v := [];
    assert v + Unquote(s[1..]).0 == Unquote(s[1..]).0;
    while end < |s| && s[end] != '"'
      invariant 1 <= end <= |s|
      invariant Continues(Unquote(s[1..]), v, Unquote(s[end..]))
    {
      UnquoteFrom(s, end);
      ghost var from := end;
      if s[end] == '\\' && end + 1 < |s| {
        end := end + 1;
      }
      OneMore(Unquote(s[1..]), v, Unquote(s[from..]), s[end], Unquote(s[end + 1..]));
      v := v + [s[end]];
      end := end + 1;
    }
    assert v + [] == v;
    if end < |s| {
      assert s[end..][1..] == s[end + 1..];
      end := end + 1;
    }
    rest := s[end..];
  }

  /** The whole is what was read before what is still to be read. */
  ghost predicate Continues(whole: (string, string), before: string, after: (string, string)) {
    whole == (before + after.0, after.1)
  }

  lemma {:induction false} OneMore(whole: (string, string), before: string, after: (string, string), c: char,
                                   after': (string, string))
    requires Continues(whole, before, after) && after == ([c] + after'.0, after'.1)
    ensures Continues(whole, before + [c], after')
  {
    assert before + ([c] + after'.0) == before + [c] + after'.0;
  }

  lemma {:induction false} UnquoteFrom(s: string, i: nat)
    requires i < |s| && s[i] != '"'
    ensures s[i] == '\\' && i + 1 < |s| ==>
              Unquote(s[i..]) == ([s[i + 1]] + Unquote(s[i + 2..]).0, Unquote(s[i + 2..]).1)
    ensures !(s[i] == '\\' && i + 1 < |s|) ==>
              Unquote(s[i..]) == ([s[i]] + Unquote(s[i + 1..]).0, Unquote(s[i + 1..]).1)
  {
    assert s[i..][1..] == s[i + 1..];
    if i + 1 < |s| {
      assert s[i..][2..] == s[i + 2..];
    }
  }

  // ---------------------------------------------------------------- printing

  datatype Param = Param(name: string, value: string, quoted: bool)

  function EscQ(s: string): string {
    if s == [] then []
    else (if s[0] == '\\' || s[0] == '"' then ['\\', s[0]] else [s[0]]) + EscQ(s[1..])
  }

  function ValueText(p: Param): string {
    if p.quoted then ['"'] + EscQ(p.value) + ['"'] else p.value
  }

  function Printed(p: Param): string {
    p.name + "=" + ValueText(p)
  }

  function PrintedAll(ps: seq<Param>): (r: seq<string>)
    ensures |r| == |ps| && forall i :: 0 <= i < |ps| ==> r[i] == Printed(ps[i])
  {
    seq(|ps|, i requires 0 <= i < |ps| => Printed(ps[i]))
  }

  function Print(ps: seq<Param>): string {
    Join(PrintedAll(ps), ", ")
  }

  /** Names and bare values that stand for themselves. */
  predicate IsName(s: string) {
    s != [] && forall i :: 0 <= i < |s| ==> 'a' <= s[i] <= 'z'
  }

  predicate IsToken(s: string) {
    forall i :: 0 <= i < |s| ==> s[i] == '-' || '0' <= s[i] <= '9' || 'A' <= s[i] <= 'Z' || 'a' <= s[i] <= 'z'
  }

  predicate Printable(p: Param) {
    IsName(p.name) && (p.quoted || IsToken(p.value))
  }

  /** The parameters one after the other, a later one of the same name in place of an earlier. */
  function Entered(ps: seq<Param>, found: map<string, string>): map<string, string> {
    if ps == [] then found else Entered(ps[1..], found[ps[0].name := ps[0].value])
  }

  lemma {:induction false} UnquoteUndoesEscQ(v: string, rest: string)
    ensures Unquote(EscQ(v) + ['"'] + rest) == (v, rest)
    decreases |v|
  {
    if v != [] {
      UnquoteUndoesEscQ(v[1..], rest);
      assert v == [v[0]] + v[1..];
      var s, t := EscQ(v) + ['"'] + rest, EscQ(v[1..]) + ['"'] + rest;
      if v[0] == '\\' || v[0] == '"' {
        assert s == ['\\', v[0]] + t;
        assert s[2..] == t;
      } else {
        assert s == [v[0]] + t;
        assert s[1..] == t;
      }
    } else {
      assert (EscQ(v) + ['"'] + rest)[1..] == rest;
    }
  }

  lemma {:induction false} TokenIsTrimmed(s: string)
    requires IsToken(s)
    ensures TrimSpace(s) == s && ',' !in s && (s != [] ==> s[0] != '"')
  {
    assert TrimLeft(s) == s;
    assert TrimRight(s) == s;
  }

  lemma {:induction false} NameIsKept(s: string)
    requires IsName(s)
    ensures ParamName(s) == s && '=' !in s && !Skipped(s[0])
  {
    TokenIsTrimmed(s);
  }

  /** What follows a parameter: nothing, or a comma. */
  predicate Follows(rest: string) {
    rest == [] || rest[0] == ','
  }

  lemma {:induction false} ValueReadsBack(p: Param, rest: string)
    requires Printable(p) && Follows(rest)
    ensures Value(ValueText(p) + rest) == (p.value, rest)
  {
    var s := ValueText(p) + rest;
    if p.quoted {
      assert s[1..] == EscQ(p.value) + ['"'] + rest;
      UnquoteUndoesEscQ(p.value, rest);
    } else {
      BareReadsBack(p.value, rest);
    }
  }

  lemma {:induction false} BareReadsBack(v: string, rest: string)
    requires IsToken(v) && Follows(rest)
    ensures Value(v + rest) == (v, rest)
  {
    TokenIsTrimmed(v);
    var s := v + rest;
    if rest == [] {
      assert s == v;
    } else {
      assert s[..|v|] == v && s[|v|..] == rest;
      IndexOfIs(s, ',', |v|);
    }
  }

  lemma {:induction false} ParamReadsBack(sep: string, p: Param, rest: string, found: map<string, string>, s: string)
    requires Printable(p) && Follows(rest) && (forall c :: c in sep ==> Skipped(c))
    requires s == sep + Printed(p) + rest
    ensures ParseFrom(s, found) == ParseFrom(rest, found[p.name := p.value])
  {
    NameIsKept(p.name);
    var t := Printed(p) + rest;
    assert s == sep + t;
    Separated(sep, t);
    NameDelimited(p, rest, t);
    ValueReadsBack(p, rest);
    assert ReadOne(s) == Read(p.name, p.value, rest);
  }

  lemma {:induction false} NameDelimited(p: Param, rest: string, t: string)
    requires IsName(p.name) && '=' !in p.name && t == Printed(p) + rest
    ensures |p.name| < |t| && t[0] == p.name[0] && IndexOf(t, '=') == |p.name|
    ensures t[..|p.name|] == p.name && t[|p.name| + 1..] == ValueText(p) + rest
  {
    assert t[..|p.name|] == p.name;
    IndexOfIs(t, '=', |p.name|);
  }

  lemma {:induction false} Separated(sep: string, t: string)
    requires (forall c :: c in sep ==> Skipped(c)) && t != [] && !Skipped(t[0])
    ensures SkipSeparators(sep + t) == t
    decreases |sep|
  {
    if sep == [] {
      assert sep + t == t;
    } else {
      assert (sep + t)[1..] == sep[1..] + t;
      Separated(sep[1..], t);
    }
  }

  // ---- any text ----

  /** Blanks, commas and tabs. */
  predicate IsSeparator(s: string) {
    forall i :: 0 <= i < |s| ==> s[i] == ' ' || s[i] == ',' || s[i] == '\t'
  }

  /** A name as some program may write it: no equals sign in it and no separator before it. */
  predicate IsRawName(name: string) {
    '=' !in name && (name != "" ==> !IsSeparator(name[..1]))
  }

  lemma {:induction false} RawNameDelimited(sep: string, name: string, after: string)
    requires IsSeparator(sep) && IsRawName(name)
    ensures var t := name + "=" + after;
            SkipSeparators(sep + t) == t && IndexOf(t, '=') == |name| && t[..|name|] == name && t[|name| + 1..] == after
  {
    var t := name + "=" + after;
    assert t[..|name|] == name && t[|name| + 1..] == after;
    assert name != "" ==> t[0] == name[..1][0];
    Separated(sep, t);
    IndexOfIs(t, '=', |name|);
  }

  lemma {:induction false} ReadRaw(sep: string, name: string, after: string, found: map<string, string>)
    requires IsSeparator(sep) && IsRawName(name)
    ensures ParseFrom(sep + (name + "=" + after), found)
            == ParseFrom(Value(after).1, found[Lower(TrimSpace(name)) := Value(after).0])
  {
    RawNameDelimited(sep, name, after);
  }

  /**
   Whatever stands between parameters and whatever case and blanks their names are written with: a quoted value is
   what was quoted, and a bare one is all up to the next comma, less the blanks around it. Where there is no equals
   sign there is no parameter.
   */
  lemma {:induction false} AnyParameter(sep: string, name: string, v: string, rest: string, found: map<string, string>)
    requires IsSeparator(sep) && IsRawName(name)
    ensures ParseFrom(sep + (name + "=" + (['"'] + EscQ(v) + ['"'] + rest)), found)
            == ParseFrom(rest, found[Lower(TrimSpace(name)) := v])
    ensures ',' !in v && !HasPrefix(v, ['"']) && (rest == "" || (rest[0] == ',')) && v + rest != "" ==>
              ParseFrom(sep + (name + "=" + (v + rest)), found)
              == ParseFrom(rest, found[Lower(TrimSpace(name)) := TrimSpace(v)])
    ensures '=' !in v ==> ParseFrom(v, found) == found
  {
    var quoted := ['"'] + EscQ(v) + ['"'] + rest;
    assert quoted[1..] == EscQ(v) + ['"'] + rest;
    UnquoteUndoesEscQ(v, rest);
    ReadRaw(sep, name, quoted, found);
    ReadRaw(sep, name, v + rest, found);
    if ',' !in v && !HasPrefix(v, ['"']) && (rest == "" || (rest[0] == ',')) {
      BareValue(v, rest);
    }
    if '=' !in v {
      NothingToRead(v);
    }
  }

  lemma {:induction false} BareValue(v: string, rest: string)
    requires ',' !in v && !HasPrefix(v, ['"']) && (rest == "" || (rest[0] == ','))
    ensures Value(v + rest) == (TrimSpace(v), rest)
  {
    var s := v + rest;
    assert v != "" ==> v[..1] == [v[0]];
    if rest == "" {
      assert s == v;
    } else {
      assert s[..|v|] == v && s[|v|..] == rest;
      IndexOfIs(s, ',', |v|);
    }
  }

  lemma {:induction false} NothingToRead(s: string)
    requires '=' !in s
    ensures '=' !in SkipSeparators(s)
    decreases |s|
  {
    if s != "" {
      NothingToRead(s[1..]);
    }
  }

  // ---- any list of parameters ----

  /** Reading what was printed gives the parameters back, whatever is in their values. */
  lemma {:induction false} PrintReadsBack(sep: string, ps: seq<Param>, found: map<string, string>)
    requires forall p :: p in ps ==> Printable(p)
    requires forall c :: c in sep ==> Skipped(c)
    ensures ParseFrom(sep + Print(ps), found) == Entered(ps, found)
    decreases |ps|
  {
    if ps == [] {
      assert sep + Print(ps) == sep;
      OnlySeparators(sep);
    } else {
      var rest := if |ps| == 1 then [] else ", " + Print(ps[1..]);
      PrintFirst(sep, ps, rest);
      ParamReadsBack(sep, ps[0], rest, found, sep + Print(ps));
      PrintReadsBack(if |ps| == 1 then [] else ", ", ps[1..], found[ps[0].name := ps[0].value]);
      assert |ps| == 1 ==> [] + Print(ps[1..]) == rest;
    }
  }

  lemma {:induction false} PrintFirst(sep: string, ps: seq<Param>, rest: string)
    requires ps != [] && rest == if |ps| == 1 then [] else ", " + Print(ps[1..])
    ensures sep + Print(ps) == sep + Printed(ps[0]) + rest
  {
    assert PrintedAll(ps)[1..] == PrintedAll(ps[1..]);
  }

  lemma {:induction false} OnlySeparators(sep: string)
    requires forall c :: c in sep ==> Skipped(c)
    ensures SkipSeparators(sep) == []
    decreases |sep|
  {
    if sep != [] {
      OnlySeparators(sep[1..]);
    }
  }

  // ---------------------------------------------------------------- the header

  datatype Algorithm = MD5 | SHA256

  datatype Challenge = Challenge(realm: string, nonce: string, opaque_: string, algorithm: string, qop: string)

  /** The hash functions, of which nothing is known but that they give bytes. */
  type Hash = (Algorithm, string) -> seq<bv8>

  const AUTH := "auth"
  const AUTH_INT := "auth-int"

  function HexChar(n: nat): (r: char)
    requires n < 16
    ensures IsToken([r])
  {
    if n < 10 then '0' + n as char else 'a' + (n - 10) as char
  }

  function HexText(bytes: seq<bv8>): (r: string)
    ensures IsToken(r)
  {
    if bytes == [] then []
    else [HexChar(bytes[0] as nat / 16), HexChar(bytes[0] as nat % 16)] + HexText(bytes[1..])
  }

  /** Lower-case hexadecimal, in at least the given number of digits. */
  function HexCount(n: nat, width: nat): (r: string)
    ensures IsToken(r)
    decreases n + width
  {
    if n == 0 && width == 0 then []
    else HexCount(n / 16, if width == 0 then 0 else width - 1) + [HexChar(n % 16)]
  }

  function UpperChar(c: char): char {
    if 'a' <= c <= 'z' then ((c as int) - 32) as char else c
  }

  function Upper(s: string): string {
    if s == [] then [] else [UpperChar(s[0])] + Upper(s[1..])
  }

  function IsSession(alg: string): bool {
    HasSuffix(Upper(alg), "-SESS")
  }

  /** The hash a challenge names; MD5 when it names none, and nothing for one that is not supported. */
  function DigestHash(alg: string): Option<Algorithm> {
    var up := Upper(alg);
    var base := if IsSession(alg) then up[..|up| - 5] else up;
    if base == [] || base == "MD5" then Some(MD5)
    else if base == "SHA-256" then Some(SHA256)
    else None
  }

  /** The text is this one in capitals, some letters perhaps not in capitals. */
  predicate SpelledAs(s: string, capitals: string) {
    && |s| == |capitals|
    && forall i :: 0 <= i < |s| ==>
         s[i] == capitals[i] || ('A' <= capitals[i] <= 'Z' && s[i] as int == capitals[i] as int + 32)
  }

  lemma {:induction false} UpperExactly(s: string, capitals: string)
    requires forall i :: 0 <= i < |capitals| ==> !('a' <= capitals[i] <= 'z')
    ensures Upper(s) == capitals <==> SpelledAs(s, capitals)
    decreases |s|
  {
    if s != "" && capitals != "" {
      UpperExactly(s[1..], capitals[1..]);
      assert capitals == [capitals[0]] + capitals[1..];
      assert SpelledAs(s, capitals) ==> SpelledAs(s[1..], capitals[1..]);
    }
  }

  lemma {:induction false} BaseOf(up: string, base: string)
    requires base == "" || base == "MD5" || base == "SHA-256"
    ensures (if HasSuffix(up, "-SESS") then up[..|up| - 5] else up) == base <==> up == base || up == base + "-SESS"
  {
    if HasSuffix(up, "-SESS") {
      assert up == up[..|up| - 5] + "-SESS";
      assert base == "SHA-256" ==> base[|base| - 5] == 'A';
    } else {
      assert HasSuffix(base + "-SESS", "-SESS");
    }
  }

  /** Which names are understood, in any case: none or MD5, and SHA-256, each also for a session. */
  lemma {:induction false} DigestHashExactly(alg: string)
    ensures DigestHash(alg) == Some(SHA256) <==> SpelledAs(alg, "SHA-256") || SpelledAs(alg, "SHA-256-SESS")
    ensures DigestHash(alg) == Some(MD5) <==>
            alg == "" || SpelledAs(alg, "-SESS") || SpelledAs(alg, "MD5") || SpelledAs(alg, "MD5-SESS")
  {
    BaseOf(Upper(alg), "");
    BaseOf(Upper(alg), "MD5");
    BaseOf(Upper(alg), "SHA-256");
    assert "" + "-SESS" == "-SESS" && "MD5" + "-SESS" == "MD5-SESS" && "SHA-256" + "-SESS" == "SHA-256-SESS";
    UpperExactly(alg, "-SESS");
    UpperExactly(alg, "MD5");
    UpperExactly(alg, "MD5-SESS");
    UpperExactly(alg, "SHA-256");
    UpperExactly(alg, "SHA-256-SESS");
    UpperExactly(alg, "");
  }

  function AlgorithmText(a: Algorithm, session: bool): (r: string)
    ensures IsToken(r)
  {
    (if a == MD5 then "MD5" else "SHA-256") + if session then "-sess" else ""
  }

  function Pieces(s: string, c: char): seq<string>
    decreases |s|
  {
    var i := IndexOf(s, c);
    if i < 0 then [s] else [s[..i]] + Pieces(s[i + 1..], c)
  }

  lemma {:induction false} JoinedPieces(s: string, c: char)
    ensures Pieces(s, c) != [] && Join(Pieces(s, c), [c]) == s
    ensures forall i :: 0 <= i < |Pieces(s, c)| ==> c !in Pieces(s, c)[i]
    decreases |s|
  {
    var i := IndexOf(s, c);
    if i >= 0 {
      JoinedPieces(s[i + 1..], c);
      assert s == s[..i] + [c] + s[i + 1..];
    }
  }

  /** A text is divided at every such character and nowhere else. */
  lemma {:induction false} PiecesExactly(s: string, c: char, parts: seq<string>)
    ensures parts == Pieces(s, c) <==>
            parts != [] && Join(parts, [c]) == s && forall i :: 0 <= i < |parts| ==> c !in parts[i]
  {
    JoinedPieces(s, c);
    if parts != [] && Join(parts, [c]) == s && forall i :: 0 <= i < |parts| ==> c !in parts[i] {
      PiecesOfJoined(parts, c);
    }
  }

  lemma {:induction false} PiecesOfJoined(parts: seq<string>, c: char)
    requires parts != [] && forall i :: 0 <= i < |parts| ==> c !in parts[i]
    ensures Pieces(Join(parts, [c]), c) == parts
    decreases |parts|
  {
    if |parts| > 1 {
      var rest := Join(parts[1..], [c]);
      var s := parts[0] + [c] + rest;
      assert s[..|parts[0]|] == parts[0] && s[|parts[0]| + 1..] == rest;
      IndexOfIs(s, c, |parts[0]|);
      PiecesOfJoined(parts[1..], c);
    }
  }

  /** A quality of protection that is understood, or none. */
  datatype Qop = NoQop | QopAuth | QopAuthInt

  function QopOf(s: string): Qop {
    if s == AUTH then QopAuth else if s == AUTH_INT then QopAuthInt else NoQop
  }

  function QopText(q: Qop): string {
    match q
    case NoQop => ""
    case QopAuth => AUTH
    case QopAuthInt => AUTH_INT
  }

  /** What each entry of the list offers. */
  function Qops(list: seq<string>): seq<Qop> {
    seq(|list|, i requires 0 <= i < |list| => QopOf(TrimSpace(list[i])))
  }

  function Chosen(offered: seq<Qop>): Qop {
    if QopAuth in offered then QopAuth else if QopAuthInt in offered then QopAuthInt else NoQop
  }

  /** The list, divided at its commas, has this entry, blanks aside. */
  ghost predicate Offers(list: string, entry: string) {
    exists parts, i ::
      && parts != [] && Join(parts, ",") == list && (forall j :: 0 <= j < |parts| ==> ',' !in parts[j])
      && 0 <= i < |parts| && TrimSpace(parts[i]) == entry
  }

  lemma {:induction false} OffersExactly(list: string, entry: string)
    ensures Offers(list, entry) <==>
            exists i :: 0 <= i < |Pieces(list, ',')| && TrimSpace(Pieces(list, ',')[i]) == entry
  {
    JoinedPieces(list, ',');
    if Offers(list, entry) {
      var parts, i :|
        && parts != [] && Join(parts, ",") == list && (forall j :: 0 <= j < |parts| ==> ',' !in parts[j])
        && 0 <= i < |parts| && TrimSpace(parts[i]) == entry;
      PiecesExactly(list, ',', parts);
    }
  }

  /** Plain authentication is taken up whenever it is offered, else that with integrity if that is, else none. */
  lemma {:induction false} ChosenExactly(list: string)
    ensures Chosen(Qops(Pieces(list, ','))) == if Offers(list, "auth") then QopAuth
                                               else if Offers(list, "auth-int") then QopAuthInt
                                               else NoQop
  {
    var pieces := Pieces(list, ',');
    OffersExactly(list, "auth");
    OffersExactly(list, "auth-int");
    assert |"auth"| != |"auth-int"|;
    assert forall i :: 0 <= i < |pieces| ==> Qops(pieces)[i] == QopOf(TrimSpace(pieces[i]));
    assert QopAuth in Qops(pieces) <==> exists i :: 0 <= i < |pieces| && TrimSpace(pieces[i]) == "auth";
    assert QopAuthInt in Qops(pieces) <==> exists i :: 0 <= i < |pieces| && TrimSpace(pieces[i]) == "auth-int";
  }

  /** Plain authentication is taken up whenever it is offered, whatever comes before it. */
  method ChooseQop(offered: seq<Qop>) returns (qop: Qop)
    ensures qop == Chosen(offered)
  {
    qop := NoQop;
    for i := 0 to |offered|
      invariant QopAuth !in offered[..i]
      invariant qop == if QopAuthInt in offered[..i] then QopAuthInt else NoQop
    {
      var q := offered[i];
      if q == QopAuth || (q == QopAuthInt && qop == NoQop) {
        qop := q;
        if q == QopAuth {
          return;
        }
      }
    }
    assert offered[..|offered|] == offered;
  }

  datatype Call = Call(user: string, pass: string, method_: string, uri: string, body: string, cnonce: string, nc: nat)

  function Hashed(hash: Hash, a: Algorithm, s: string): string {
    HexText(hash(a, s))
  }

  function Response(hash: Hash, a: Algorithm, session: bool, c: Challenge, call: Call, qop: Qop): (r: string)
    ensures IsToken(r)
  {
    var secret := Hashed(hash, a, call.user + ":" + c.realm + ":" + call.pass);
    var ha1 := if session then Hashed(hash, a, secret + ":" + c.nonce + ":" + call.cnonce) else secret;
    var resource := call.method_ + ":" + call.uri;
    var ha2 := Hashed(hash, a, if qop == QopAuthInt then resource + ":" + Hashed(hash, a, call.body) else resource);
    var protection := if qop == NoQop then "" else HexCount(call.nc, 8) + ":" + call.cnonce + ":" + QopText(qop) + ":";
    Hashed(hash, a, ha1 + ":" + c.nonce + ":" + protection + ha2)
  }

  const USERNAME := "username"
  const REALM := "realm"
  const NONCE := "nonce"
  const URI := "uri"
  const RESPONSE := "response"
  const ALGORITHM := "algorithm"
  const OPAQUE := "opaque"
  const QOP := "qop"
  const NC := "nc"
  const CNONCE := "cnonce"

  function Always(c: Challenge, call: Call, response: string): seq<Param> {
    [ Param(USERNAME, call.user, true), Param(REALM, c.realm, true), Param(NONCE, c.nonce, true),
      Param(URI, call.uri, true), Param(RESPONSE, response, true)]
  }

  function NamedAlgorithm(c: Challenge, a: Algorithm): seq<Param> {
    if c.algorithm == "" then [] else [Param(ALGORITHM, AlgorithmText(a, IsSession(c.algorithm)), false)]
  }

  function Echoed(c: Challenge): seq<Param> {
    if c.opaque_ == "" then [] else [Param(OPAQUE, c.opaque_, true)]
  }

  function Protected(call: Call, qop: Qop): seq<Param> {
    if qop == NoQop then []
    else [Param(QOP, QopText(qop), false), Param(NC, HexCount(call.nc, 8), false), Param(CNONCE, call.cnonce, true)]
  }

  /** What the header says, in the order in which it says it. */
  function Said(c: Challenge, call: Call, a: Algorithm, qop: Qop, response: string): seq<Param> {
    Always(c, call, response) + NamedAlgorithm(c, a) + Echoed(c) + Protected(call, qop)
  }

  /** The parameters that answer the challenge. */
  function Answer(hash: Hash, a: Algorithm, c: Challenge, call: Call): seq<Param> {
    var qop := Chosen(Qops(Pieces(c.qop, ',')));
    Said(c, call, a, qop, Response(hash, a, IsSession(c.algorithm), c, call, qop))
  }

  lemma {:induction false} TokenIsPlain(s: string)
    requires IsToken(s)
    ensures EscQ(s) == s
    decreases |s|
  {
    if s != [] {
      TokenIsPlain(s[1..]);
      assert s == [s[0]] + s[1..];
    }
  }

  function Quoted(s: string): string {
    ['"'] + EscQ(s) + ['"']
  }

  /** The Authorization header value, or none for an algorithm that is not supported. */
  method DigestHeader(hash: Hash, c: Challenge, call: Call) returns (r: Option<string>)
    ensures r == match DigestHash(c.algorithm)
                 case None => None
                 case Some(a) => Some("Digest " + Print(Answer(hash, a, c, call)))
  {
    var alg := DigestHash(c.algorithm);
    if alg == None {
      return None;
    }
    var a := alg.value;
    var qop := ChooseQop(Qops(Pieces(c.qop, ',')));
    var resp := Response(hash, a, IsSession(c.algorithm), c, call, qop);
    var parts := Parts(c, call, a, qop, resp);
    return Some("Digest " + Join(parts, ", "));
  }

  method Parts(c: Challenge, call: Call, a: Algorithm, qop: Qop, resp: string) returns (parts: seq<string>)
    requires IsToken(resp)
    ensures parts == PrintedAll(Said(c, call, a, qop, resp))
  {
    AlwaysPrinted(c, call, resp);
    OthersPrinted(c, call, a, qop);
    parts := [
      USERNAME + "=" + Quoted(call.user), REALM + "=" + Quoted(c.realm),
      NONCE + "=" + Quoted(c.nonce), URI + "=" + Quoted(call.uri),
      RESPONSE + "=" + (['"'] + resp + ['"'])];
    ghost var first, second, third, fourth := Always(c, call, resp), NamedAlgorithm(c, a), Echoed(c),
        Protected(call, qop);
    assert parts == PrintedAll(first);
    if c.algorithm != "" {
      parts := parts + [ALGORITHM + "=" + AlgorithmText(a, IsSession(c.algorithm))];
    }
    assert parts == PrintedAll(first) + PrintedAll(second);
    if c.opaque_ != "" {
      parts := parts + [OPAQUE + "=" + Quoted(c.opaque_)];
    }
    assert parts == PrintedAll(first) + PrintedAll(second) + PrintedAll(third);
    if qop != NoQop {
      parts := parts + [QOP + "=" + QopText(qop), NC + "=" + HexCount(call.nc, 8),
                        CNONCE + "=" + Quoted(call.cnonce)];
    }
    assert parts == PrintedAll(first) + PrintedAll(second) + PrintedAll(third) + PrintedAll(fourth);
    AllPrinted(first, second, third, fourth);
  }

  lemma {:induction false} AlwaysPrinted(c: Challenge, call: Call, resp: string)
    requires IsToken(resp)
    ensures PrintedAll(Always(c, call, resp)) == [
              USERNAME + "=" + Quoted(call.user), REALM + "=" + Quoted(c.realm),
              NONCE + "=" + Quoted(c.nonce), URI + "=" + Quoted(call.uri),
              RESPONSE + "=" + (['"'] + resp + ['"'])]
  {
    TokenIsPlain(resp);
  }

  lemma {:induction false} OthersPrinted(c: Challenge, call: Call, a: Algorithm, qop: Qop)
    ensures PrintedAll(NamedAlgorithm(c, a)) ==
            if c.algorithm == "" then [] else [ALGORITHM + "=" + AlgorithmText(a, IsSession(c.algorithm))]
    ensures PrintedAll(Echoed(c)) == if c.opaque_ == "" then [] else [OPAQUE + "=" + Quoted(c.opaque_)]
    ensures PrintedAll(Protected(call, qop)) == if qop == NoQop then []
            else [QOP + "=" + QopText(qop), NC + "=" + HexCount(call.nc, 8), CNONCE + "=" + Quoted(call.cnonce)]
  {}

  lemma {:induction false} AllPrinted(ps: seq<Param>, qs: seq<Param>, rs: seq<Param>, ts: seq<Param>)
    ensures PrintedAll(ps + qs + rs + ts) == PrintedAll(ps) + PrintedAll(qs) + PrintedAll(rs) + PrintedAll(ts)
  {}

  // ---------------------------------------------------------------- round trip

  lemma {:induction false} NamesAreNames()
    ensures IsName(USERNAME) && IsName(REALM) && IsName(NONCE) && IsName(URI) && IsName(RESPONSE)
    ensures IsName(ALGORITHM) && IsName(OPAQUE) && IsName(QOP) && IsName(NC) && IsName(CNONCE)
  {}

  /** The names differ in their length or their first letter. */
  lemma {:induction false} NamesDiffer()
    ensures |USERNAME| == |RESPONSE| == 8 && USERNAME[0] == 'u' && RESPONSE[0] == 'r'
    ensures |REALM| == |NONCE| == 5 && REALM[0] == 'r' && NONCE[0] == 'n'
    ensures |URI| == |QOP| == 3 && URI[0] == 'u' && QOP[0] == 'q'
    ensures |OPAQUE| == |CNONCE| == 6 && OPAQUE[0] == 'o' && CNONCE[0] == 'c'
    ensures |ALGORITHM| == 9 && |NC| == 2
  {}

  lemma {:induction false} EnteredAfter(ps: seq<Param>, qs: seq<Param>, found: map<string, string>)
    ensures Entered(ps + qs, found) == Entered(qs, Entered(ps, found))
    decreases |ps|
  {
    if ps == [] {
      assert ps + qs == qs;
    } else {
      assert (ps + qs)[1..] == ps[1..] + qs;
      EnteredAfter(ps[1..], qs, found[ps[0].name := ps[0].value]);
    }
  }

  function OfAlways(c: Challenge, call: Call, response: string): map<string, string> {
    map[USERNAME := call.user, REALM := c.realm, NONCE := c.nonce, URI := call.uri, RESPONSE := response]
  }

  /** Every field under its own name, and those that are absent under none. */
  function Recovered(c: Challenge, call: Call, a: Algorithm, qop: Qop, response: string): map<string, string> {
    OfAlways(c, call, response)
    + (if c.algorithm == "" then map[] else map[ALGORITHM := AlgorithmText(a, IsSession(c.algorithm))])
    + (if c.opaque_ == "" then map[] else map[OPAQUE := c.opaque_])
    + (if qop == NoQop then map[] else map[QOP := QopText(qop), NC := HexCount(call.nc, 8), CNONCE := call.cnonce])
  }

  lemma {:induction false} SaidIsPrintable(c: Challenge, call: Call, a: Algorithm, qop: Qop, response: string)
    ensures forall p :: p in Said(c, call, a, qop, response) ==> Printable(p)
  {
    NamesAreNames();
    assert forall p :: p in Always(c, call, response) ==> Printable(p);
    assert forall p :: p in NamedAlgorithm(c, a) ==> Printable(p);
    assert IsToken(QopText(qop));
    assert forall p :: p in Protected(call, qop) ==> Printable(p);
  }

  lemma {:induction false} EnteredAlways(c: Challenge, call: Call, response: string)
    ensures Entered(Always(c, call, response), map[]) == OfAlways(c, call, response)
  {
    var ps := Always(c, call, response);
    NamesDiffer();
    assert Entered(ps[5..], OfAlways(c, call, response)) == OfAlways(c, call, response);
    EnteredFive(ps);
  }

  lemma {:induction false} EnteredFive(ps: seq<Param>)
    requires |ps| == 5
    ensures Entered(ps, map[]) ==
            map[][ps[0].name := ps[0].value][ps[1].name := ps[1].value][ps[2].name := ps[2].value]
            [ps[3].name := ps[3].value][ps[4].name := ps[4].value]
  {
    var m := Entered(ps[..3], map[]);
    EnteredThree(ps[..3], map[]);
    EnteredAfter(ps[..3], ps[3..], map[]);
    assert ps == ps[..3] + ps[3..];
    EnteredTwo(ps[3..], m);
  }

  lemma {:induction false} EnteredTwo(ps: seq<Param>, found: map<string, string>)
    requires |ps| == 2
    ensures Entered(ps, found) == found[ps[0].name := ps[0].value][ps[1].name := ps[1].value]
  {
    assert ps[1..] == [ps[1]];
    assert [ps[1]][1..] == [];
    var first := found[ps[0].name := ps[0].value];
    assert Entered([ps[1]], first) == first[ps[1].name := ps[1].value];
  }

  lemma {:induction false} EnteredThree(ps: seq<Param>, found: map<string, string>)
    requires |ps| == 3
    ensures Entered(ps, found) == found[ps[0].name := ps[0].value][ps[1].name := ps[1].value][ps[2].name := ps[2].value]
  {
    EnteredTwo(ps[1..], found[ps[0].name := ps[0].value]);
  }

  /** What is read from the header printed is what was printed: each field exactly, and no other. */
  lemma {:induction false} HeaderReadsBack(c: Challenge, call: Call, a: Algorithm, qop: Qop, response: string)
    ensures Parse(("Digest " + Print(Said(c, call, a, qop, response)))[6..]) == Recovered(c, call, a, qop, response)
  {
    var ps := Said(c, call, a, qop, response);
    SaidIsPrintable(c, call, a, qop, response);
    assert ("Digest " + Print(ps))[6..] == " " + Print(ps);
    PrintReadsBack(" ", ps, map[]);
    EnteredAll(c, call, a, qop, response);
  }

  lemma {:induction false} EnteredAll(c: Challenge, call: Call, a: Algorithm, qop: Qop, response: string)
    ensures Entered(Said(c, call, a, qop, response), map[]) == Recovered(c, call, a, qop, response)
  {
    EnteredAlways(c, call, response);
    var m := OfAlways(c, call, response);
    EnteredAfter(Always(c, call, response) + NamedAlgorithm(c, a) + Echoed(c), Protected(call, qop), map[]);
    EnteredAfter(Always(c, call, response) + NamedAlgorithm(c, a), Echoed(c), map[]);
    EnteredAfter(Always(c, call, response), NamedAlgorithm(c, a), map[]);
    var m1 := m + (if c.algorithm == "" then map[] else map[ALGORITHM := AlgorithmText(a, IsSession(c.algorithm))]);
    assert Entered(NamedAlgorithm(c, a), m) == m1;
    var m2 := m1 + (if c.opaque_ == "" then map[] else map[OPAQUE := c.opaque_]);
    assert Entered(Echoed(c), m1) == m2;
    EnteredProtected(call, qop, m2);
  }

  lemma {:induction false} EnteredProtected(call: Call, qop: Qop, m: map<string, string>)
    ensures Entered(Protected(call, qop), m) ==
            m + if qop == NoQop then map[]
                else map[QOP := QopText(qop), NC := HexCount(call.nc, 8), CNONCE := call.cnonce]
  {
    var ps := Protected(call, qop);
    NamesDiffer();
    if qop != NoQop {
      EnteredThree(ps, m);
    }
  }

  /** The fields are under names that differ, so each is found under its own. */
  lemma {:induction false} RecoveredFields(c: Challenge, call: Call, a: Algorithm, qop: Qop, response: string)
    ensures var m := Recovered(c, call, a, qop, response);
            && USERNAME in m && m[USERNAME] == call.user && REALM in m && m[REALM] == c.realm
            && NONCE in m && m[NONCE] == c.nonce && URI in m && m[URI] == call.uri
            && RESPONSE in m && m[RESPONSE] == response
            && (OPAQUE in m <==> c.opaque_ != "") && (OPAQUE in m ==> m[OPAQUE] == c.opaque_)
            && (ALGORITHM in m <==> c.algorithm != "")
            && (CNONCE in m <==> qop != NoQop) && (CNONCE in m ==> m[CNONCE] == call.cnonce)
  {
    NamesDiffer();
  }

  function Get(m: map<string, string>, k: string): string {
    if k in m then m[k] else []
  }

  /** A challenge, if the text is one of this scheme and has a nonce. */
  function ParseChallenge(text: string): (Challenge, bool) {
    var h := TrimSpace(text);
    if |h| < 7 || !EqualFold(h[..6], "digest") then (Challenge([], [], [], [], []), false)
    else
      var p := Parse(h[6..]);
      var c := Challenge(Get(p, REALM), Get(p, NONCE), Get(p, OPAQUE), Get(p, ALGORITHM), Get(p, QOP));
      (c, c.nonce != [])
  }

  lemma {:induction false} PrintedEnds(ps: seq<Param>)
    requires ps != [] && forall p :: p in ps ==> Printable(p)
    ensures Print(ps) != [] && !IsSpace(Print(ps)[|Print(ps)| - 1])
    decreases |ps|
  {
    if |ps| > 1 {
      PrintedEnds(ps[1..]);
      PrintFirst([], ps, ", " + Print(ps[1..]));
      assert [] + Print(ps) == Print(ps);
    } else {
      PrintFirst([], ps, []);
      assert [] + Print(ps) == Print(ps);
      assert Printable(ps[0]);
    }
  }

  lemma {:induction false} TrimmedAlready(s: string)
    requires s != [] && !IsSpace(s[0]) && !IsSpace(s[|s| - 1])
    ensures TrimSpace(s) == s
  {}

  lemma {:induction false} SchemeIsFirst(s: string)
    ensures EqualFold(("Digest " + s)[..6], "digest")
  {
    var t := ("Digest " + s)[..6];
    assert t == "Digest";
    assert t[0] == 'D' && t[1] == 'i' && t[2] == 'g' && t[3] == 'e' && t[4] == 's' && t[5] == 't';
  }

  /** A text of another scheme is no challenge, nor is one without a nonce. */
  lemma {:induction false} ChallengeExactly(text: string)
    ensures var h := TrimSpace(text);
            ParseChallenge(text).1 <==>
            |h| > 6 && EqualFold(h[..6], "digest") && NONCE in Parse(h[6..]) && Parse(h[6..])[NONCE] != ""
  {}

  /** The header read as a challenge names the one it answers, and the quality of protection taken up. */
  lemma {:induction false} HeaderNamesChallenge(c: Challenge, call: Call, a: Algorithm, qop: Qop, response: string)
    ensures ParseChallenge("Digest " + Print(Said(c, call, a, qop, response)))
            == (Challenge(c.realm, c.nonce, c.opaque_,
                          if c.algorithm == "" then "" else AlgorithmText(a, IsSession(c.algorithm)), QopText(qop)),
                c.nonce != "")
  {
    var ps := Said(c, call, a, qop, response);
    SaidIsPrintable(c, call, a, qop, response);
    PrintedEnds(ps);
    TrimmedAlready("Digest " + Print(ps));
    SchemeIsFirst(Print(ps));
    HeaderReadsBack(c, call, a, qop, response);
    RecoveredNames(c, call, a, qop, response);
  }

  lemma {:induction false} RecoveredNames(c: Challenge, call: Call, a: Algorithm, qop: Qop, response: string)
    ensures var m := Recovered(c, call, a, qop, response);
            && Get(m, REALM) == c.realm && Get(m, NONCE) == c.nonce && Get(m, OPAQUE) == c.opaque_
            && Get(m, ALGORITHM) == (if c.algorithm == "" then "" else AlgorithmText(a, IsSession(c.algorithm)))
            && Get(m, QOP) == QopText(qop)
  {
    NamesDiffer();
  }
}
