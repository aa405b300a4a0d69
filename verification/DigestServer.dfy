/**
 The other side of Digest authentication (section 3.4 of RFC 7616): a server that knows the password reads the
 header and works out the response for itself.
 */
module DigestServer {
  import opened Text
  import opened Digest

  /** What goes into a response, as text. */
  datatype Fields = Fields(user: string, realm: string, nonce: string, uri: string, qop: Option<string>, nc: string,
                           cnonce: string)

  /** The response to these fields: over the key, the nonce and what is asked for, and over the count, the cnonce and
      the quality of protection if there is one. */
  function Worked(hash: Hash, a: Algorithm, session: bool, f: Fields, verb: string, body: string,
                  pass: string): string {
    var user := HexText(hash(a, f.user + ":" + f.realm + ":" + pass));
    var ha1 := if session then HexText(hash(a, user + ":" + f.nonce + ":" + f.cnonce)) else user;
    var a2 := verb + ":" + f.uri;
    var ha2 := HexText(hash(a, if f.qop == Some("auth-int") then a2 + ":" + HexText(hash(a, body)) else a2));
    HexText(hash(a, match f.qop
                    case None => ha1 + ":" + f.nonce + ":" + ha2
                    case Some(q) => ha1 + ":" + f.nonce + ":" + f.nc + ":" + f.cnonce + ":" + q + ":" + ha2))
  }

  function FieldsOf(m: map<string, string>): Fields {
    Fields(Get(m, "username"), Get(m, "realm"), Get(m, "nonce"), Get(m, "uri"),
           if "qop" in m then Some(m["qop"]) else None, Get(m, "nc"), Get(m, "cnonce"))
  }

  /** The response a server expects, from what it has read, the request and the password. */
  function Expected(hash: Hash, m: map<string, string>, verb: string, body: string, pass: string): Option<string> {
    match DigestHash(Get(m, "algorithm"))
    case None => None
    case Some(a) => Some(Worked(hash, a, IsSession(Get(m, "algorithm")), FieldsOf(m), verb, body, pass))
  }

  /** What a server reads in the header that answers the challenge. */
  function Read(hash: Hash, a: Algorithm, c: Challenge, call: Call): map<string, string> {
    Parse(("Digest " + Print(Answer(hash, a, c, call)))[6..])
  }

  /** The response in the header is the one the server expects. */
  ghost predicate Accepts(hash: Hash, a: Algorithm, c: Challenge, call: Call) {
    var m := Read(hash, a, c, call);
    "response" in m && Expected(hash, m, call.method_, call.body, call.pass) == Some(m["response"])
  }

  lemma {:induction false} UpperIs(s: string, t: string)
    requires |s| == |t| && forall i :: 0 <= i < |s| ==> t[i] == UpperChar(s[i])
    ensures Upper(s) == t
    decreases |s|
  {
    if s != "" {
      UpperIs(s[1..], t[1..]);
      assert t == [t[0]] + t[1..];
    }
  }

  /** The name of an algorithm is read as that algorithm. */
  lemma {:induction false} AlgorithmReadsBack(a: Algorithm, session: bool)
    ensures var t := AlgorithmText(a, session); DigestHash(t) == Some(a) && IsSession(t) == session
  {
    var t := AlgorithmText(a, session);
    if a == MD5 {
      UpperIs(t, if session then "MD5-SESS" else "MD5");
    } else {
      UpperIs(t, if session then "SHA-256-SESS" else "SHA-256");
      assert !session ==> Upper(t)[|Upper(t)| - 5] == 'A';
    }
  }

  lemma {:induction false} NoAlgorithmIsMD5()
    ensures DigestHash("") == Some(MD5) && !IsSession("")
  {}

  /** What the client works with, with the count and the given cnonce. */
  function Used(c: Challenge, call: Call, qop: Qop, cnonce: string): Fields {
    Fields(call.user, c.realm, c.nonce, call.uri, if qop == NoQop then None else Some(QopText(qop)),
           if qop == NoQop then "" else HexCount(call.nc, 8), cnonce)
  }

  lemma {:induction false} ResponseIs(hash: Hash, a: Algorithm, session: bool, c: Challenge, call: Call, qop: Qop)
    ensures Response(hash, a, session, c, call, qop)
            == Worked(hash, a, session, Used(c, call, qop, call.cnonce), call.method_, call.body, call.pass)
  {
    QopsDiffer();
    var secret := Hashed(hash, a, call.user + ":" + c.realm + ":" + call.pass);
    var ha1 := if session then Hashed(hash, a, secret + ":" + c.nonce + ":" + call.cnonce) else secret;
    var resource := call.method_ + ":" + call.uri;
    var ha2 := Hashed(hash, a, if qop == QopAuthInt then resource + ":" + Hashed(hash, a, call.body) else resource);
    var front := ha1 + ":" + c.nonce + ":";
    if qop != NoQop {
      Regroup(front, HexCount(call.nc, 8), call.cnonce, QopText(qop), ha2);
    } else {
      assert front + "" + ha2 == front + ha2;
    }
  }

  /** The fields the server works with are those the client worked with, but for a cnonce that is not sent. */
  lemma {:induction false} ReadFields(hash: Hash, a: Algorithm, c: Challenge, call: Call, qop: Qop)
    requires DigestHash(c.algorithm) == Some(a) && qop == Chosen(Qops(Pieces(c.qop, ',')))
    ensures var m := Read(hash, a, c, call);
            && FieldsOf(m) == Used(c, call, qop, if qop == NoQop then "" else call.cnonce)
            && "response" in m && m["response"] == Response(hash, a, IsSession(c.algorithm), c, call, qop)
            && DigestHash(Get(m, "algorithm")) == Some(a) && IsSession(Get(m, "algorithm")) == IsSession(c.algorithm)
  {
    var response := Response(hash, a, IsSession(c.algorithm), c, call, qop);
    HeaderReadsBack(c, call, a, qop, response);
    RecoveredFields(c, call, a, qop, response);
    RecoveredNames(c, call, a, qop, response);
    RecoveredQop(c, call, a, qop, response);
    AlgorithmReadsBack(a, IsSession(c.algorithm));
    NoAlgorithmIsMD5();
  }

  lemma {:induction false} QopsDiffer()
    ensures QopText(QopAuth) != "auth-int" && QopText(QopAuthInt) == "auth-int"
  {
    assert |"auth"| != |"auth-int"|;
  }

  lemma {:induction false} Regroup(front: string, nc: string, cnonce: string, qop: string, end: string)
    ensures front + (nc + ":" + cnonce + ":" + qop + ":") + end
            == front + nc + ":" + cnonce + ":" + qop + ":" + end
  {}

  lemma {:induction false} RecoveredQop(c: Challenge, call: Call, a: Algorithm, qop: Qop, response: string)
    ensures var m := Recovered(c, call, a, qop, response);
            (QOP in m <==> qop != NoQop) && Get(m, NC) == (if qop == NoQop then "" else HexCount(call.nc, 8))
  {
    NamesDiffer();
  }

  /** No quality of protection is taken up, the algorithm is a session one, and there is a cnonce. */
  predicate KeepsCnonce(c: Challenge, call: Call) {
    Chosen(Qops(Pieces(c.qop, ','))) == NoQop && IsSession(c.algorithm) && call.cnonce != ""
  }

  /** What the header has is the response over all fields, and what is expected is that over those sent. */
  lemma {:induction false} AcceptsMeans(hash: Hash, a: Algorithm, c: Challenge, call: Call, qop: Qop)
    requires DigestHash(c.algorithm) == Some(a) && qop == Chosen(Qops(Pieces(c.qop, ',')))
    ensures var session, sent := IsSession(c.algorithm), if qop == NoQop then "" else call.cnonce;
            Accepts(hash, a, c, call) <==>
            Worked(hash, a, session, Used(c, call, qop, sent), call.method_, call.body, call.pass)
            == Worked(hash, a, session, Used(c, call, qop, call.cnonce), call.method_, call.body, call.pass)
  {
    ReadFields(hash, a, c, call, qop);
    ResponseIs(hash, a, IsSession(c.algorithm), c, call, qop);
  }

  /** Without a session key or a quality of protection the cnonce does not matter. */
  lemma {:induction false} CnonceUnused(hash: Hash, a: Algorithm, c: Challenge, call: Call, cnonce: string)
    ensures Worked(hash, a, false, Used(c, call, NoQop, cnonce), call.method_, call.body, call.pass)
            == Worked(hash, a, false, Used(c, call, NoQop, call.cnonce), call.method_, call.body, call.pass)
  {}

  lemma {:induction false} AcceptsUnlessKept(hash: Hash, a: Algorithm, c: Challenge, call: Call)
    requires DigestHash(c.algorithm) == Some(a) && !KeepsCnonce(c, call)
    ensures Accepts(hash, a, c, call)
  {
    AcceptsMeans(hash, a, c, call, Chosen(Qops(Pieces(c.qop, ','))));
    CnonceUnused(hash, a, c, call, "");
  }

  // ---- a session key with a cnonce that is not sent ----

  /** As many zeros as the text has characters: a hash that tells texts apart by their length. */
  function LengthHash(): Hash {
    (a, s) => seq(|s|, i => 0)
  }

  lemma {:induction false} HexTextLength(bytes: seq<bv8>)
    ensures |HexText(bytes)| == 2 * |bytes|
    decreases |bytes|
  {
    if bytes != [] {
      HexTextLength(bytes[1..]);
    }
  }

  lemma {:induction false} HashedLength(a: Algorithm, s: string)
    ensures |HexText(LengthHash()(a, s))| == 2 * |s|
  {
    HexTextLength(LengthHash()(a, s));
  }

  lemma {:induction false} KeptIsRejected(a: Algorithm, c: Challenge, call: Call)
    requires DigestHash(c.algorithm) == Some(a) && KeepsCnonce(c, call)
    ensures !Accepts(LengthHash(), a, c, call)
  {
    AcceptsMeans(LengthHash(), a, c, call, NoQop);
    WorkedLength(a, Used(c, call, NoQop, ""), call);
    WorkedLength(a, Used(c, call, NoQop, call.cnonce), call);
  }

  lemma {:induction false} WorkedLength(a: Algorithm, f: Fields, call: Call)
    requires f.qop == None
    ensures |Worked(LengthHash(), a, true, f, call.method_, call.body, call.pass)|
            == 2 * (2 * (2 * (|f.user| + |f.realm| + |call.pass| + 2) + |f.nonce| + |f.cnonce| + 2) + |f.nonce| + 2
                    + 2 * (|call.method_| + |f.uri| + 1))
  {
    var hash := LengthHash();
    var first := f.user + ":" + f.realm + ":" + call.pass;
    var user := HexText(hash(a, first));
    HashedLength(a, first);
    var second := user + ":" + f.nonce + ":" + f.cnonce;
    HashedLength(a, second);
    var third := call.method_ + ":" + f.uri;
    HashedLength(a, third);
    HashedLength(a, HexText(hash(a, second)) + ":" + f.nonce + ":" + HexText(hash(a, third)));
  }

  /**
   A server that knows the password accepts the header it reads, whatever the hash functions are, exactly unless the
   algorithm is a session one and no quality of protection is taken up: the cnonce that is in the key then is not in
   the header.
   */
  lemma {:induction false} ServerAcceptsExactly(a: Algorithm, c: Challenge, call: Call)
    requires DigestHash(c.algorithm) == Some(a)
    ensures (forall hash :: Accepts(hash, a, c, call)) <==> !KeepsCnonce(c, call)
  {
    if KeepsCnonce(c, call) {
      KeptIsRejected(a, c, call);
    } else {
      forall hash ensures Accepts(hash, a, c, call) {
        AcceptsUnlessKept(hash, a, c, call);
      }
    }
  }

  // ---- the count ----

  function DigitValue(c: char): int {
    if '0' <= c <= '9' then c as int - '0' as int else c as int - 'a' as int + 10
  }

  /** A hash is printed as two digits for each byte. */
  lemma {:induction false} HexTextReadsBack(bytes: seq<bv8>, i: nat)
    requires i < |bytes|
    ensures var s := HexText(bytes);
            |s| == 2 * |bytes| && 16 * DigitValue(s[2 * i]) + DigitValue(s[2 * i + 1]) == bytes[i] as int
  {
    HexTextLength(bytes);
    if i > 0 {
      HexTextReadsBack(bytes[1..], i - 1);
      assert HexText(bytes)[2 * i..] == HexText(bytes[1..])[2 * (i - 1)..];
    }
  }

  function HexValueOf(s: string): int {
    if s == "" then 0 else HexValueOf(s[..|s| - 1]) * 16 + DigitValue(s[|s| - 1])
  }

  function Power16(k: nat): nat {
    if k == 0 then 1 else 16 * Power16(k - 1)
  }

  /** The count is in hexadecimal, filled up with zeros to the width if it is shorter. */
  lemma {:induction false} CountReadsBack(n: nat, width: nat)
    ensures HexValueOf(HexCount(n, width)) == n && |HexCount(n, width)| >= width
    ensures n < Power16(width) ==> |HexCount(n, width)| == width
    decreases n + width
  {
    if n > 0 || width > 0 {
      var front := HexCount(n / 16, if width == 0 then 0 else width - 1);
      CountReadsBack(n / 16, if width == 0 then 0 else width - 1);
      assert HexCount(n, width)[..|front|] == front;
      assert DigitValue(HexChar(n % 16)) == n % 16;
    }
  }
}
