/** Signed tokens: `idGenerator` makes and checks them, `Session` takes them apart again, and all that
    is known of the digest is that it is a function. */
module Tokens {
  import opened Wrappers
  import opened Base64

  /** Octets that are the characters of a text. */
  ghost predicate IsText(b: Bytes, s: string) {
    |b| == |s| && forall i :: 0 <= i < |b| ==> b[i] as int == s[i] as int
  }

  /** {"alg":"HS512","typ":"JWT"}, in three pieces. */
  const HEADER1: Bytes := [0x7B, 0x22, 0x61, 0x6C, 0x67, 0x22, 0x3A, 0x22, 0x48]
  const HEADER2: Bytes := [0x53, 0x35, 0x31, 0x32, 0x22, 0x2C, 0x22, 0x74, 0x79]
  const HEADER3: Bytes := [0x70, 0x22, 0x3A, 0x22, 0x4A, 0x57, 0x54, 0x22, 0x7D]
  const HEADER: Bytes := HEADER1 + (HEADER2 + HEADER3)

  lemma HeaderPieces()
    ensures IsText(HEADER1, "{\"alg\":\"H") && IsText(HEADER2, "S512\",\"ty") && IsText(HEADER3, "p\":\"JWT\"}")
  {
    forall i: nat | i < 9
      ensures |HEADER1| == |HEADER2| == |HEADER3| == 9 && HEADER1[i] as int == "{\"alg\":\"H"[i] as int
      ensures HEADER2[i] as int == "S512\",\"ty"[i] as int && HEADER3[i] as int == "p\":\"JWT\"}"[i] as int
    {
      HeaderPieceAt(i);
    }
  }

  lemma HeaderPieceAt(i: nat)
    requires i < 9
    ensures |HEADER1| == |HEADER2| == |HEADER3| == 9 && HEADER1[i] as int == "{\"alg\":\"H"[i] as int
    ensures HEADER2[i] as int == "S512\",\"ty"[i] as int && HEADER3[i] as int == "p\":\"JWT\"}"[i] as int
  {
  }

  lemma TextJoined(a: Bytes, b: Bytes, s: string, t: string)
    requires IsText(a, s) && IsText(b, t)
    ensures IsText(a + b, s + t)
  {
  }

  lemma HeaderIsText()
    ensures IsText(HEADER, "{\"alg\":\"H" + ("S512\",\"ty" + "p\":\"JWT\"}"))
  {
    HeaderPieces();
    TextJoined(HEADER2, HEADER3, "S512\",\"ty", "p\":\"JWT\"}");
    TextJoined(HEADER1, HEADER2 + HEADER3, "{\"alg\":\"H", "S512\",\"ty" + "p\":\"JWT\"}");
  }

  lemma HeaderText()
    ensures "{\"alg\":\"HS512\",\"typ\":\"JWT\"}" == "{\"alg\":\"H" + ("S512\",\"ty" + "p\":\"JWT\"}")
  {
  }

  /** The digest (hex text of SHA-512 in the code) and the key. */
  datatype Signer = Signer(digest: Bytes -> Bytes, key: Bytes)

  function Signature(g: Signer, header: Bytes, payload: Bytes): Bytes {
    EncodeURI(g.digest(header + [DOT] + payload + g.key))
  }

  function Join3(header: Bytes, payload: Bytes, signature: Bytes): Bytes {
    header + [DOT] + payload + [DOT] + signature
  }

  /** Two encoded parts with their signature. */
  function Sign(g: Signer, header: Bytes, payload: Bytes): Bytes {
    Join3(header, payload, Signature(g, header, payload))
  }

  /** `generateJWT`. */
  function GenerateJWT(g: Signer, data: Bytes): Bytes { Sign(g, EncodeURI(HEADER), EncodeURI(data)) }

  /** A token from scratch: the header that names HS512, the payload and the digest of both with the key
      behind them, each in the unpadded URL form, with dots (octet 46) between. */
  lemma TokenShape(g: Signer, data: Bytes, header: Bytes)
    requires IsText(header, "{\"alg\":\"HS512\",\"typ\":\"JWT\"}")
    ensures var h, p := EncodeURI(header), EncodeURI(data);
            GenerateJWT(g, data) == h + [46] + p + [46] + EncodeURI(g.digest(h + [46] + p + g.key))
  {
    HeaderIsText();
    HeaderText();
    SameBytes(header, HEADER);
  }

  lemma SameBytes(a: Bytes, b: Bytes)
    requires |a| == |b| && forall i :: 0 <= i < |a| ==> a[i] as int == b[i] as int
    ensures a == b
  {
    forall i | 0 <= i < |a| ensures a[i] == b[i] { SameOctet(a[i], b[i]); }
  }

  /** Its length: with a digest of 128 octets and a payload of 4 it is 215. */
  lemma TokenLength(g: Signer, data: Bytes, n: nat)
    requires forall x :: |g.digest(x)| == n
    ensures |GenerateJWT(g, data)| == 36 + 1 + (4 * |data| + 2) / 3 + 1 + (4 * n + 2) / 3
  {
    assert |HEADER| == 27;
    LengthOf(g, HEADER, data, n);
  }

  lemma LengthOf(g: Signer, header: Bytes, data: Bytes, n: nat)
    requires forall x :: |g.digest(x)| == n
    ensures |Sign(g, EncodeURI(header), EncodeURI(data))|
         == (4 * |header| + 2) / 3 + 1 + (4 * |data| + 2) / 3 + 1 + (4 * n + 2) / 3
  {
    UriIsFront(header);
    UriIsFront(data);
    UriIsFront(g.digest(EncodeURI(header) + [DOT] + EncodeURI(data) + g.key));
  }

  // ---- Splitting

  /** The length of the part before the first dot. */
  function PartLength(s: Bytes): (n: nat)
    ensures n <= |s| && (n < |s| ==> s[n] == DOT)
  {
    if s == [] || s[0] == DOT then 0 else 1 + PartLength(s[1..])
  }

  /** What successive `std::getline` calls deliver: no part behind a final dot. */
  function Split(s: Bytes): seq<Bytes>
    decreases |s|, 1
  {
    if s == [] then [] else SplitAt(s, PartLength(s))
  }

  /** The part of `n` octets, and those behind the dot. */
  function SplitAt(s: Bytes, n: nat): (parts: seq<Bytes>)
    requires n <= |s|
    ensures parts != []
    decreases |s|, 0
  {
    if n == |s| then [s] else [s[..n]] + Split(s[n + 1..])
  }

  /** `splitString`. */
  method SplitString(str: Bytes) returns (tokens: seq<Bytes>)
    ensures tokens == Split(str)
  {
    tokens := [];
    var rest := str;
    while rest != []
      invariant tokens + Split(rest) == Split(str)
      decreases |rest|
    {
      var n := 0;
      while n < |rest| && rest[n] != DOT
        invariant 0 <= n <= |rest| && PartLength(rest) == n + PartLength(rest[n..])
      {
        assert rest[n..][1..] == rest[n + 1..];
        n := n + 1;
      }
      var token := rest[..n];
      SplitStep(rest, n);
      assert n == |rest| ==> token == rest;
      AssocParts(tokens, token, Split(if n == |rest| then [] else rest[n + 1..]));
      rest := if n == |rest| then [] else rest[n + 1..];
      tokens := tokens + [token];
    }
    assert tokens + [] == tokens;
  }

  lemma {:induction false} SplitStep(s: Bytes, n: nat)
    requires s != [] && n == PartLength(s)
    ensures Split(s) == if n == |s| then [s] else [s[..n]] + Split(s[n + 1..])
  {
    assert Split(s) == SplitAt(s, n);
  }

  lemma AssocParts(done: seq<Bytes>, part: Bytes, more: seq<Bytes>)
    ensures done + ([part] + more) == done + [part] + more
    ensures more == [] ==> done + [part] == done + [part] + more
  {
  }

  lemma {:induction false} PartEnds(part: Bytes, rest: Bytes)
    requires NoDot(part)
    ensures PartLength(part + ([DOT] + rest)) == |part|
    ensures PartLength(part) == |part|
  {
    if part == [] {
      assert part + ([DOT] + rest) == [DOT] + rest;
    } else {
      assert (part + ([DOT] + rest))[1..] == part[1..] + ([DOT] + rest);
      PartEnds(part[1..], rest);
    }
  }

  lemma SplitPart(part: Bytes, rest: Bytes)
    requires NoDot(part)
    ensures Split(part + ([DOT] + rest)) == [part] + Split(rest)
  {
    var s := part + ([DOT] + rest);
    PartEnds(part, rest);
    assert s[..|part|] == part && s[|part| + 1..] == rest;
  }

  /** Three parts without dots are split again, the last one only if it is not empty. */
  lemma SplitJoin3(header: Bytes, payload: Bytes, signature: Bytes)
    requires NoDot(header) && NoDot(payload) && NoDot(signature)
    ensures Split(Join3(header, payload, signature))
         == [header, payload] + (if signature == [] then [] else [signature])
  {
    Join3Nested(header, payload, signature);
    SplitPart(header, payload + ([DOT] + signature));
    SplitPart(payload, signature);
    PartEnds(signature, []);
    assert Split(signature) == if signature == [] then [] else [signature];
  }

  // ---- Verifying

  function PartAt(parts: seq<Bytes>, i: nat): Bytes { if i < |parts| then parts[i] else [] }

  /** `verifyJWT`: a missing part is read as empty, further parts are ignored. */
  function VerifyJWT(g: Signer, token: Bytes): bool {
    var parts := Split(token);
    PartAt(parts, 2) == Signature(g, PartAt(parts, 0), PartAt(parts, 1))
  }

  ghost predicate DigestNotEmpty(g: Signer) { forall x :: g.digest(x) != [] }

  /** A signed join of two parts without dots, with nothing or a dot and anything behind it. */
  ghost predicate IsSigned(g: Signer, token: Bytes, header: Bytes, payload: Bytes, rest: Bytes) {
    && NoDot(header) && NoDot(payload)
    && (rest == [] || rest[0] == DOT)
    && token == Sign(g, header, payload) + rest
  }

  /** Every token: it verifies if and only if it is the signed join of two parts, or that and more
      parts. */
  lemma VerifiesExactly(g: Signer, token: Bytes)
    requires DigestNotEmpty(g)
    ensures VerifyJWT(g, token) <==> exists header, payload, rest :: IsSigned(g, token, header, payload, rest)
  {
    var parts := Split(token);
    SignatureShape(g, PartAt(parts, 0), PartAt(parts, 1));
    if VerifyJWT(g, token) { VerifiedIsSigned(g, token); }
    forall header, payload, rest | IsSigned(g, token, header, payload, rest) ensures VerifyJWT(g, token) {
      SignatureShape(g, header, payload);
      SplitSigned(header, payload, Signature(g, header, payload), rest);
    }
  }

  lemma SignatureShape(g: Signer, header: Bytes, payload: Bytes)
    requires DigestNotEmpty(g)
    ensures Signature(g, header, payload) != [] && NoDot(Signature(g, header, payload))
  {
    UriRoundTrip(g.digest(header + [DOT] + payload + g.key));
  }

  lemma VerifiedIsSigned(g: Signer, token: Bytes)
    requires VerifyJWT(g, token) && PartAt(Split(token), 2) != []
    ensures exists header, payload, rest :: IsSigned(g, token, header, payload, rest)
  {
    var t1 := CutPart(token);
    var t2 := CutPart(t1);
    var rest := CutLast(t2);
    Join3Nested(Split(token)[0], Split(t1)[0], Split(t2)[0] + rest);
    var parts := Split(token);
    Join3Rest(parts[0], parts[1], parts[2], rest);
    assert IsSigned(g, token, parts[0], parts[1], rest);
  }

  lemma SplitSigned(header: Bytes, payload: Bytes, signature: Bytes, rest: Bytes)
    requires NoDot(header) && NoDot(payload) && NoDot(signature) && signature != []
    requires rest == [] || rest[0] == DOT
    ensures var parts := Split(Join3(header, payload, signature) + rest);
            PartAt(parts, 0) == header && PartAt(parts, 1) == payload && PartAt(parts, 2) == signature
  {
    Join3Rest(header, payload, signature, rest);
    Join3Nested(header, payload, signature + rest);
    SplitPart(header, payload + ([DOT] + (signature + rest)));
    SplitPart(payload, signature + rest);
    SplitLast(signature, rest);
  }

  lemma SplitLast(part: Bytes, rest: Bytes)
    requires NoDot(part) && part != [] && (rest == [] || rest[0] == DOT)
    ensures PartAt(Split(part + rest), 0) == part
  {
    if rest == [] {
      PartEnds(part, []);
      assert part + rest == part;
    } else {
      assert rest == [DOT] + rest[1..];
      SplitPart(part, rest[1..]);
    }
  }

  lemma Join3Rest(header: Bytes, payload: Bytes, signature: Bytes, rest: Bytes)
    ensures Join3(header, payload, signature) + rest == Join3(header, payload, signature + rest)
  {
  }

  lemma Join3Nested(a: Bytes, b: Bytes, c: Bytes)
    ensures a + ([DOT] + (b + ([DOT] + c))) == Join3(a, b, c)
  {
  }

  lemma CutAt(s: Bytes, n: nat)
    requires n < |s|
    ensures s == s[..n] + ([s[n]] + s[n + 1..])
  {
  }

  /** The first part, and what is behind its dot. */
  lemma {:induction false} CutPart(s: Bytes) returns (rest: Bytes)
    requires |Split(s)| > 1
    ensures NoDot(Split(s)[0]) && s == Split(s)[0] + ([DOT] + rest)
    ensures Split(s) == [Split(s)[0]] + Split(rest)
  {
    var n := PartLength(s);
    rest := s[n + 1..];
    SplitStep(s, n);
    PartHasNoDot(s);
    CutAt(s, n);
  }

  lemma CutLast(s: Bytes) returns (rest: Bytes)
    requires s != []
    ensures s == Split(s)[0] + rest && (rest == [] || rest[0] == DOT)
  {
    rest := s[PartLength(s)..];
    SplitStep(s, PartLength(s));
  }

  lemma {:induction false} PartHasNoDot(s: Bytes)
    ensures NoDot(s[..PartLength(s)])
  {
    if s != [] && s[0] != DOT {
      PartHasNoDot(s[1..]);
      assert s[..PartLength(s)] == [s[0]] + s[1..][..PartLength(s[1..])];
    }
  }

  // ---- The payload

  datatype Opened = Text(text: Bytes) | NoText | Threw

  /** `JSONfromJWT` up to the JSON parser: anything but three parts, or an empty text, gives nothing;
      characters that are not base64 throw. */
  function OpenPayload(token: Bytes): Opened {
    var parts := Split(token);
    if |parts| != 3 then NoText
    else
      match Decode(Repad(parts[1]))
      case None => Threw
      case Some(text) => if text == [] then NoText else Text(text)
  }

  /** For every payload, key and digest: the token verifies under its key, splits into three parts
      exactly when the digest is not empty, and its middle part, padded again, decodes to the
      payload. */
  lemma TokenRoundTrip(g: Signer, data: Bytes)
    ensures var token := GenerateJWT(g, data);
            && VerifyJWT(g, token)
            && |Split(token)| >= 2 && Decode(Repad(Split(token)[1])) == Some(data)
            && (|Split(token)| == 3 <==> g.digest(EncodeURI(HEADER) + [DOT] + EncodeURI(data) + g.key) != [])
  {
    UriRoundTrip(HEADER);
    SignedRoundTrip(g, EncodeURI(HEADER), data);
  }

  lemma SignedRoundTrip(g: Signer, header: Bytes, data: Bytes)
    requires NoDot(header)
    ensures var token := Sign(g, header, EncodeURI(data));
            && VerifyJWT(g, token)
            && |Split(token)| >= 2 && Split(token)[1] == EncodeURI(data)
            && Decode(Repad(EncodeURI(data))) == Some(data)
            && (|Split(token)| == 3 <==> g.digest(header + [DOT] + EncodeURI(data) + g.key) != [])
  {
    var payload := EncodeURI(data);
    UriRoundTrip(data);
    UriRoundTrip(g.digest(header + [DOT] + payload + g.key));
    SplitJoin3(header, payload, Signature(g, header, payload));
  }

  /** With a digest that is never empty the payload of a token is read back, unless it is empty. */
  lemma OpensToData(g: Signer, data: Bytes)
    requires DigestNotEmpty(g)
    ensures OpenPayload(GenerateJWT(g, data)) == if data == [] then NoText else Text(data)
  {
    UriRoundTrip(HEADER);
    var header := EncodeURI(HEADER);
    OpensSigned(g, header, data, Sign(g, header, EncodeURI(data)));
  }

  lemma OpensSigned(g: Signer, header: Bytes, data: Bytes, token: Bytes)
    requires DigestNotEmpty(g) && NoDot(header)
    requires token == Sign(g, header, EncodeURI(data))
    ensures OpenPayload(token) == if data == [] then NoText else Text(data)
  {
    SignedInThree(g, header, data);
    OpensThree(token, data);
  }

  lemma SignedInThree(g: Signer, header: Bytes, data: Bytes)
    requires DigestNotEmpty(g) && NoDot(header)
    ensures var parts := Split(Sign(g, header, EncodeURI(data)));
            |parts| == 3 && parts[1] == EncodeURI(data) && Decode(Repad(EncodeURI(data))) == Some(data)
  {
    var payload := EncodeURI(data);
    UriRoundTrip(data);
    SignatureShape(g, header, payload);
    SplitJoin3(header, payload, Signature(g, header, payload));
  }

  lemma OpensThree(token: Bytes, data: Bytes)
    requires |Split(token)| == 3 && Decode(Repad(Split(token)[1])) == Some(data)
    ensures OpenPayload(token) == if data == [] then NoText else Text(data)
  {
  }
}
