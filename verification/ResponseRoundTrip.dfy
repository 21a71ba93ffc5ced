/** The client of `ResponseReader` reading what the server of `ServerResponse` prints: where the header
    block ends, the status line, the framing headers, and then the message or the file. */
module ResponseRoundTrip {
  import opened Wrappers
  import opened Text
  import opened Sequences
  import opened Numbers
  import opened HttpParsers
  import opened StringMap
  import opened ServerResponse
  import opened ResponseReader
  import opened ResponseArrival

  // ---- The status line

  lemma ThreeDigitNumeral(n: nat)
    requires 100 <= n < 1000
    ensures |Decimal(n)| == 3
  {
    assert |Decimal(n / 10 / 10)| == 1;
    assert |Decimal(n / 10)| == 2;
  }

  lemma ReasonIsText(code: int)
    requires Reason(code).Some?
    ensures 100 <= code < 1000 && FieldChars(Reason(code).value)
  {
    SuccessReasons();
    RedirectReasons();
    ClientErrorReasons();
    ServerErrorReasons();
  }

  lemma SuccessReasons()
    ensures FieldChars("OK") && FieldChars("Created") && FieldChars("Accepted") && FieldChars("No Content")
  {
  }

  lemma RedirectReasons()
    ensures FieldChars("Multiple Choices") && FieldChars("Moved Permanently") && FieldChars("Found")
    ensures FieldChars("See Other") && FieldChars("Not Modified")
    ensures FieldChars("Temporary Redirect") && FieldChars("Permanent Redirect")
  {
  }

  lemma ClientErrorReasons()
    ensures FieldChars("Bad Request") && FieldChars("Unauthorized") && FieldChars("Forbidden")
    ensures FieldChars("Not Found") && FieldChars("Method Not Allowed")
  {
  }

  lemma ServerErrorReasons()
    ensures FieldChars("Internal Server Error") && FieldChars("Not Implemented") && FieldChars("Service Unavailable")
  {
  }

  lemma PlainChars(a: string, b: string)
    requires forall j :: 0 <= j < |a| ==> a[j] != '\r'
    requires forall j :: 0 <= j < |b| ==> b[j] != '\r'
    ensures forall j :: 0 <= j < |a + b| ==> (a + b)[j] != '\r'
  {
  }

  lemma StatusTextIsPlain(code: int)
    requires Reason(code).Some?
    ensures PlainLine(StatusText(code))
  {
    ReasonIsText(code);
    var num, reason := Decimal(code), Reason(code).value;
    PlainChars(" ", reason);
    PlainChars(num, " " + reason);
    PlainChars("HTTP/1.1 ", num + (" " + reason));
  }

  lemma StatusLineParses(code: int, rest: string)
    requires Reason(code).Some?
    ensures StatusLine(StatusText(code) + (CRLF + rest))
         == Ok(Status(1, 1, code, Reason(code).value), |StatusText(code)| + 2)
  {
    ReasonIsText(code);
    ThreeDigitNumeral(code);
    var num, reason := Decimal(code), Reason(code).value;
    var s := StatusText(code) + (CRLF + rest);
    Nested("HTTP/1.1 ", num, " " + reason, CRLF + rest);
    Assoc(" ", reason, CRLF + rest);
    StatusParts(s, num, reason, rest);
    StatusLineExactly(s, Status(1, 1, code, reason), 15 + |reason|);
  }

  lemma StatusParts(s: string, num: string, reason: string, rest: string)
    requires s == "HTTP/1.1 " + (num + (" " + (reason + (CRLF + rest))))
    requires |num| == 3 && AllDigits(num) && FieldChars(reason)
    ensures IsStatusLine(s, Status(1, 1, Value(10, num), reason), 15 + |reason|)
  {
    assert s[..5] == "HTTP/" && s[5] == '1' && s[6] == '.' && s[7] == '1' && s[8] == ' ';
    assert s[9..12] == num && s[12] == ' ';
    assert s[13..13 + |reason|] == reason;
  }

  // ---- The framing headers

  ghost predicate CookiesPrintable(cookies: Entries) {
    forall k :: 0 <= k < |cookies| ==> FieldChars(cookies[k].name) && FieldChars(cookies[k].value)
  }

  /** The handler sets no Transfer-Encoding, and no Content-Length that is false and that
      `generateResponse` would not overwrite. */
  ghost predicate FramingLeftToServer(headers: Entries, message: string) {
    forall f :: f in headers ==>
      && Lower(f.name) != "transfer-encoding"
      && (Lower(f.name) == "content-length" ==>
            f.name == "Content-Length" && (message != "" || f.value == "" || f.value == "0"))
  }

  /** A field that says nothing about framing but, possibly, that the length is `n`. */
  ghost predicate HonestField(f: Field, n: nat) {
    && ValidField(f)
    && Lower(f.name) != "transfer-encoding"
    && (Lower(f.name) == "content-length" ==> f.value == Decimal(n))
  }

  lemma LowerIs(s: string, t: string)
    requires |s| == |t| && forall i :: 0 <= i < |s| ==> LowerChar(s[i]) == t[i]
    ensures Lower(s) == t
  {
    forall i | 0 <= i < |s| ensures Lower(s)[i] == t[i] { LowerAt(s, i); }
  }

  lemma ContentLengthLower()
    ensures Lower("Content-Length") == "content-length"
  {
    LowerIs("Content-Length", "content-length");
  }

  lemma NumeralIsText(n: nat)
    ensures FieldChars(Decimal(n)) && Strip(Decimal(n)) == Decimal(n)
  {
    var s := Decimal(n);
    assert IsDigit(s[0]) && IsDigit(s[|s| - 1]);
    assert s[0..] == s;
  }

  /** A name of another length is not a framing header. */
  lemma HonestByLength(f: Field, n: nat)
    requires ValidField(f) && |f.name| != |"transfer-encoding"| && |f.name| != |"content-length"|
    ensures HonestField(f, n)
  {
  }

  lemma {:induction false} LengthFieldIsHonest(n: nat)
    ensures HonestField(Field("Content-Length", Decimal(n)), n)
  {
    NumeralIsText(n);
    LengthNameIsToken();
    HonestLength("Content-Length", Decimal(n), n);
  }

  lemma LengthNameIsToken()
    ensures TokenChars("Content-Length")
  {
  }

  lemma HonestLength(name: string, value: string, n: nat)
    requires name != "" && TokenChars(name) && |name| != |"transfer-encoding"|
    requires FieldChars(value) && value == Decimal(n)
    ensures HonestField(Field(name, value), n)
  {
  }

  lemma TypeFieldIsHonest(n: nat)
    ensures HonestField(Field("Content-Type", "text/html"), n)
  {
    assert TokenChars("Content-Type") && FieldChars("text/html");
    HonestByLength(Field("Content-Type", "text/html"), n);
  }

  lemma ServerFieldIsHonest(n: nat)
    ensures HonestField(Field("Server", SERVER_VERSION), n)
  {
    assert TokenChars("Server") && FieldChars(SERVER_VERSION);
    HonestByLength(Field("Server", SERVER_VERSION), n);
  }

  ghost predicate AllHonest(fields: seq<Field>, n: nat) { forall f :: f in fields ==> HonestField(f, n) }

  ghost predicate HonestBut(key: string, fields: seq<Field>, n: nat) {
    forall f :: f in fields && f.name != key ==> HonestField(f, n)
  }

  lemma PutHonest(lengthKey: string, es: Entries, key: string, value: string, n: nat)
    requires Sorted(es) && HonestBut(lengthKey, es, n)
    requires key == lengthKey || HonestField(Field(key, value), n)
    ensures Sorted(Put(es, key, value)) && HonestBut(lengthKey, Put(es, key, value), n)
    ensures Get(Put(es, key, value), lengthKey) == if key == lengthKey then value else Get(es, lengthKey)
  {
    PutKeeps(es, key, value);
  }

  lemma CallerHeaders(headers: Entries, message: string)
    requires Sorted(headers) && AllValid(headers) && FramingLeftToServer(headers, message)
    ensures HonestBut("Content-Length", headers, |message|)
    ensures message == "" ==> Get(headers, "Content-Length") == "" || Get(headers, "Content-Length") == "0"
  {
    forall f | f in headers && f.name != "Content-Length" ensures HonestField(f, |message|) {
      var k :| 0 <= k < |headers| && headers[k] == f;
      assert ValidField(headers[k]);
    }
    ContentLengthLower();
    GetIsMember(headers, "Content-Length");
  }

  /** `FinalHeaders`, with the names and values as parameters. With a message the last step changes
      nothing; without one it writes the true length, zero. */
  lemma FinalSteps(L: string, T: string, S: string, type_: string, version: string, num: string, zero: string,
                   headers: Entries, n: nat, empty: bool)
    returns (h3: Entries)
    requires Sorted(headers) && HonestBut(L, headers, n)
    requires empty ==> zero == num && (Get(headers, L) == "" || Get(headers, L) == zero)
    requires L != T && L != S && num != ""
    requires HonestField(Field(T, type_), n) && HonestField(Field(S, version), n) && HonestField(Field(L, num), n)
    ensures var h1 := if !empty then Put(headers, L, num) else headers;
            var h2 := if Get(h1, T) == "" then Put(h1, T, type_) else h1;
            h3 == if Get(h2, L) == "" then Put(h2, L, zero) else h2
    ensures AllHonest(Put(h3, S, version), n) && Field(L, num) in Put(h3, S, version)
  {
    PutHonest(L, headers, L, num, n);
    var h1 := if !empty then Put(headers, L, num) else headers;
    PutHonest(L, h1, T, type_, n);
    var h2 := if Get(h1, T) == "" then Put(h1, T, type_) else h1;
    PutHonest(L, h2, L, num, n);
    h3 := if Get(h2, L) == "" then Put(h2, L, zero) else h2;
    PutHonest(L, h3, S, version, n);
    GetIsMember(Put(h3, S, version), L);
  }

  lemma NumeralOfZero()
    ensures Decimal(0) == "0"
  {
  }

  /** However the handler filled the map, it is printed with exactly one Content-Length, the true
      one, and no Transfer-Encoding. */
  lemma {:induction false} FinalHeadersAreHonest(headers: Entries, message: string)
    requires Sorted(headers) && AllValid(headers) && FramingLeftToServer(headers, message)
    ensures AllHonest(FinalHeaders(headers, message, false), |message|)
    ensures Field("Content-Length", Decimal(|message|)) in FinalHeaders(headers, message, false)
  {
    CallerHeaders(headers, message);
    FinalOfHonest(headers, message, |message|, Decimal(|message|));
  }

  lemma FinalOfHonest(headers: Entries, message: string, n: nat, num: string)
    requires n == |message| && num == Decimal(n)
    requires Sorted(headers) && HonestBut("Content-Length", headers, n)
    requires message == "" ==> Get(headers, "Content-Length") == "" || Get(headers, "Content-Length") == "0"
    ensures AllHonest(FinalHeaders(headers, message, false), n)
    ensures Field("Content-Length", num) in FinalHeaders(headers, message, false)
  {
    TypeFieldIsHonest(n);
    ServerFieldIsHonest(n);
    LengthFieldIsHonest(n);
    NumeralOfZero();
    var h3 := FinalSteps("Content-Length", "Content-Type", "Server", "text/html", SERVER_VERSION, num, "0",
                         headers, n, message == "");
    assert FinalHeaders(headers, message, false) == Put(h3, "Server", SERVER_VERSION);
  }

  // ---- What the client reads

  lemma {:induction false} AllCanonicalSnoc(fields: seq<Field>, f: Field)
    ensures AllCanonical(fields + [f]) == AllCanonical(fields) + [Canonical(f)]
  {
    if fields == [] {
      assert [f][1..] == [];
    } else {
      assert (fields + [f])[1..] == fields[1..] + [f];
      AllCanonicalSnoc(fields[1..], f);
    }
  }

  ghost predicate HasLength(fields: seq<Field>) {
    exists k :: 0 <= k < |fields| && Lower(fields[k].name) == "content-length"
  }

  lemma {:induction false} HonestStep(f: Field, n: nat, fr: Framing)
    requires HonestField(f, n) && n < SIZE_LIMIT
    ensures FrameStep(fr, Canonical(f))
         == if Lower(f.name) == "content-length" then Some(fr.(length := Some(n))) else Some(fr)
  {
    if Lower(f.name) == "content-length" {
      HonestLengthIsRead(f.value, n);
      LengthStep(fr, Canonical(f), n);
    } else {
      OtherStep(fr, Canonical(f));
    }
  }

  lemma {:induction false} HonestLengthIsRead(value: string, n: nat)
    requires value == Decimal(n) && n < SIZE_LIMIT
    ensures DecimalOf(Strip(value)) == Some(n)
  {
    NumeralIsText(n);
    DecimalIsRead(n);
  }

  lemma LengthStep(fr: Framing, f: Field, n: nat)
    requires f.name == "content-length" && DecimalOf(f.value) == Some(n)
    ensures FrameStep(fr, f) == Some(fr.(length := Some(n)))
  {
  }

  lemma OtherStep(fr: Framing, f: Field)
    requires f.name != "content-length" && f.name != "transfer-encoding"
    ensures FrameStep(fr, f) == Some(fr)
  {
  }

  /** The framing of honest fields: no chunks, and the length if any field gives one. */
  lemma {:induction false} HonestFrame(fields: seq<Field>, n: nat)
    requires AllHonest(fields, n) && n < SIZE_LIMIT
    ensures Frame(AllCanonical(fields)) == Some(Framing(false, if HasLength(fields) then Some(n) else None))
    decreases |fields|
  {
    if fields != [] {
      var front, f := fields[..|fields| - 1], fields[|fields| - 1];
      assert fields == front + [f];
      assert f in fields;
      HonestFrame(front, n);
      AllCanonicalSnoc(front, f);
      FrameSnoc(AllCanonical(front), Canonical(f));
      HonestStep(f, n, Framing(false, if HasLength(front) then Some(n) else None));
      HasLengthSnoc(front, f);
    }
  }

  lemma HasLengthSnoc(front: seq<Field>, f: Field)
    ensures HasLength(front + [f]) <==> HasLength(front) || Lower(f.name) == "content-length"
  {
    var fields := front + [f];
    if HasLength(front) {
      var k :| 0 <= k < |front| && Lower(front[k].name) == "content-length";
      assert fields[k] == front[k];
    }
    assert fields[|front|] == f;
  }

  lemma CookieFieldIsHonest(cookies: Entries, n: nat)
    requires CookiesPrintable(cookies)
    ensures HonestField(Field("Set-Cookie", CookieValue(cookies)), n)
  {
    CookieChars(cookies);
    assert TokenChars("Set-Cookie");
    HonestByLength(Field("Set-Cookie", CookieValue(cookies)), n);
  }

  lemma {:induction false} CookieChars(cookies: Entries)
    requires CookiesPrintable(cookies)
    ensures FieldChars(CookieValue(cookies))
  {
    if cookies != [] {
      CookieChars(cookies[1..]);
      var c, rest := cookies[0], CookieValue(cookies[1..]);
      assert FieldChars("=") && FieldChars("; ");
      JoinedChars("; ", rest);
      JoinedChars(c.value, "; " + rest);
      JoinedChars("=", c.value + ("; " + rest));
      JoinedChars(c.name, "=" + (c.value + ("; " + rest)));
    }
  }

  lemma JoinedChars(a: string, b: string)
    requires FieldChars(a) && FieldChars(b)
    ensures FieldChars(a + b)
  {
  }

  /** What a handler hands to the server: printable headers and cookies, any message that fits a
      `size_t`; the framing is left to the server. */
  ghost predicate Wellformed(headers: Entries, cookies: Entries, message: string) {
    && Sorted(headers) && AllValid(headers) && CookiesPrintable(cookies)
    && FramingLeftToServer(headers, message)
    && |message| < SIZE_LIMIT
  }

  function Printed(headers: Entries, cookies: Entries, message: string): seq<Field> {
    AllFields(FinalHeaders(headers, message, false), cookies)
  }

  lemma PrintedIsHonest(headers: Entries, cookies: Entries, message: string)
    requires Wellformed(headers, cookies, message)
    ensures var fields := Printed(headers, cookies, message);
            fields != [] && AllValid(fields)
            && Frame(AllCanonical(fields)) == Some(Framing(false, Some(|message|)))
  {
    FinalHeadersAreHonest(headers, message);
    CookieFieldIsHonest(cookies, |message|);
    HonestFields(FinalHeaders(headers, message, false), cookies, |message|);
  }

  lemma HonestFields(headers: Entries, cookies: Entries, n: nat)
    requires AllHonest(headers, n) && Field("Content-Length", Decimal(n)) in headers && n < SIZE_LIMIT
    requires HonestField(Field("Set-Cookie", CookieValue(cookies)), n)
    ensures AllValid(AllFields(headers, cookies))
    ensures Frame(AllCanonical(AllFields(headers, cookies))) == Some(Framing(false, Some(n)))
  {
    HonestSnoc(headers, Field("Set-Cookie", CookieValue(cookies)), n);
    HonestFrame(AllFields(headers, cookies), n);
    LengthIsAmong(headers, cookies, n);
  }

  lemma HonestSnoc(fields: seq<Field>, f: Field, n: nat)
    requires AllHonest(fields, n) && HonestField(f, n)
    ensures AllHonest(fields + [f], n) && AllValid(fields + [f])
  {
    forall k | 0 <= k < |fields + [f]| ensures ValidField((fields + [f])[k]) {
      assert k < |fields| ==> (fields + [f])[k] in fields;
    }
  }

  lemma LengthIsAmong(headers: Entries, cookies: Entries, n: nat)
    requires Field("Content-Length", Decimal(n)) in headers
    ensures HasLength(AllFields(headers, cookies))
  {
    var f := Field("Content-Length", Decimal(n));
    var k :| 0 <= k < |headers| && headers[k] == f;
    ContentLengthLower();
    assert AllFields(headers, cookies)[k] == f;
  }

  /** What the client finds among the fields: each of the handler's, the cookies, and the length `L`, the
      type `T` and the server `S`, the type being the handler's if there is one. */
  ghost predicate ClientHas(L: string, T: string, S: string, num: string, type_: string, version: string,
                            headers: Entries, cookies: Entries, fields: seq<Field>) {
    && (forall f :: f in headers && f.name != L && f.name != T && f.name != S ==> Canonical(f) in fields)
    && Canonical(Field(T, if Get(headers, T) == "" then type_ else Get(headers, T))) in fields
    && Canonical(Field(L, num)) in fields
    && Canonical(Field(S, version)) in fields
    && Canonical(Field("Set-Cookie", CookieValue(cookies))) in fields
  }

  lemma {:induction false} CanonicalMembers(fields: seq<Field>, f: Field)
    requires f in fields
    ensures Canonical(f) in AllCanonical(fields)
  {
    if f != fields[0] { CanonicalMembers(fields[1..], f); }
  }

  /** An entry with a value, among the fields that are printed. */
  lemma PrintedEntry(headers: Entries, cookies: Entries, key: string)
    requires Sorted(headers) && Get(headers, key) != ""
    ensures Canonical(Field(key, Get(headers, key))) in AllCanonical(AllFields(headers, cookies))
  {
    GetIsMember(headers, key);
    CanonicalMembers(AllFields(headers, cookies), Field(key, Get(headers, key)));
  }

  lemma ClientSees(headers: Entries, cookies: Entries, message: string)
    requires Wellformed(headers, cookies, message)
    ensures ClientHas("Content-Length", "Content-Type", "Server", Decimal(|message|), "text/html",
                      "Soria/0.0.2b (Unix)", headers, cookies, AllCanonical(Printed(headers, cookies, message)))
  {
    FinalHeadersExactly(headers, message);
    FinalHeadersAreHonest(headers, message);
    var final := FinalHeaders(headers, message, false);
    FinalIsSeen("Content-Length", "Content-Type", "Server", Decimal(|message|), "text/html", "Soria/0.0.2b (Unix)", "0",
                headers, cookies, message == "", final);
  }

  lemma FinalIsSeen(L: string, T: string, S: string, num: string, type_: string, version: string, zero: string,
                    headers: Entries, cookies: Entries, empty: bool, final: Entries)
    requires Sorted(final) && SameBut(L, T, S, headers, final) && Field(L, num) in final
    requires L != T && T != S && L != S && type_ != "" && version != ""
    requires forall key :: Get(final, key) == Completed(L, T, S, num, type_, version, zero, headers, empty, key)
    ensures ClientHas(L, T, S, num, type_, version, headers, cookies, AllCanonical(AllFields(final, cookies)))
  {
    forall f | f in headers && f.name != L && f.name != T && f.name != S
      ensures Canonical(f) in AllCanonical(AllFields(final, cookies))
    {
      CanonicalMembers(AllFields(final, cookies), f);
    }
    PrintedEntry(final, cookies, T);
    PrintedEntry(final, cookies, S);
    CanonicalMembers(AllFields(final, cookies), Field(L, num));
    CanonicalMembers(AllFields(final, cookies), Field("Set-Cookie", CookieValue(cookies)));
  }

  /** Server to client: whatever the message contains, and however the octets are cut once the
      header block has arrived in one piece, the client gets the status, the headers and exactly the
      message. */
  lemma ServerToClient(code: nat, reason: string, headers: Entries, cookies: Entries, message: string,
                       cut: seq<string>)
    requires Reason(code) == Some(reason) && Wellformed(headers, cookies, message)
    requires cut != [] && Find(cut[0], HEADER_END).Some?
    requires Flatten(cut) == ResponseText(StatusText(code), Printed(headers, cookies, message), message)
    ensures ReceiveAll(Fresh, cut)
         == Returned(Response(Some(Status(1, 1, code, reason)),
                              AllCanonical(Printed(headers, cookies, message)), message))
    ensures ClientHas("Content-Length", "Content-Type", "Server", Decimal(|message|), "text/html",
                      "Soria/0.0.2b (Unix)", headers, cookies, AllCanonical(Printed(headers, cookies, message)))
  {
    PrintedIsHonest(headers, cookies, message);
    ClientSees(headers, cookies, message);
    StatusTextIsPlain(code);
    TextToClient(code, reason, Printed(headers, cookies, message), message, cut);
  }

  lemma TextToClient(code: nat, reason: string, fields: seq<Field>, message: string, cut: seq<string>)
    requires Reason(code) == Some(reason) && PlainLine(StatusText(code)) && fields != [] && AllValid(fields)
    requires Frame(AllCanonical(fields)) == Some(Framing(false, Some(|message|)))
    requires cut != [] && Find(cut[0], HEADER_END).Some?
    requires Flatten(cut) == ResponseText(StatusText(code), fields, message)
    ensures ReceiveAll(Fresh, cut)
         == Returned(Response(Some(Status(1, 1, code, reason)), AllCanonical(fields), message))
  {
    TextIsWhole(StatusText(code), fields, message);
    StatusLineParses(code, FieldLines(fields));
    LengthArrives(StatusText(code), Status(1, 1, code, reason), fields, message, cut);
  }

  lemma TextIsWhole(statusText: string, fields: seq<Field>, message: string)
    ensures ResponseText(statusText, fields, message) == Whole(statusText, fields, message)
  {
    Nested(statusText, CRLF, FieldLines(fields), CRLF + message);
  }

  // ---- Files

  /** What the server prints in front of a file. */
  function FileFields(headers: Entries, contentType: string, size: nat, cookies: Entries): seq<Field> {
    AllFields(FinalHeaders(FileHeaders(headers, contentType, IntText(IntCast(size))), "", true), cookies)
  }

  /** The headers set before `setIsFile` say nothing about framing that it would not overwrite. */
  ghost predicate FileWellformed(headers: Entries, contentType: string, cookies: Entries) {
    && Sorted(headers) && AllValid(headers) && CookiesPrintable(cookies)
    && FieldChars(contentType)
    && forall f :: f in headers ==>
         Lower(f.name) != "transfer-encoding" && (Lower(f.name) == "content-length" ==> f.name == "Content-Length")
  }

  /** Server to client for a file below 2 GiB: the file arrives whole, with its type and length. */
  lemma FileToClient(code: nat, reason: string, headers: Entries, contentType: string, cookies: Entries,
                     fields: seq<Field>, data: string, cut: seq<string>)
    requires Reason(code) == Some(reason) && FileWellformed(headers, contentType, cookies)
    requires |data| < 0x8000_0000 && fields == FileFields(headers, contentType, |data|, cookies)
    requires cut != [] && Find(cut[0], HEADER_END).Some?
    requires Flatten(cut) == ResponseText(StatusText(code), fields, "") + data
    ensures Field("Content-Type", contentType) in fields && Field("Content-Length", Decimal(|data|)) in fields
    ensures forall f :: f in headers && f.name !in {"Content-Type", "Content-Length", "Server"} ==> f in fields
    ensures ReceiveAll(Fresh, cut)
         == Returned(Response(Some(Status(1, 1, code, reason)), AllCanonical(fields), data))
  {
    FileFieldsAreHonest(headers, contentType, |data|, cookies);
    StatusTextIsPlain(code);
    TextThenData(StatusText(code), fields, data);
    TextToClient(code, reason, fields, data, cut);
  }

  lemma TextThenData(statusText: string, fields: seq<Field>, data: string)
    ensures ResponseText(statusText, fields, "") + data == ResponseText(statusText, fields, data)
  {
    assert CRLF + "" == CRLF;
    Nested(statusText, CRLF, FieldLines(fields) + CRLF, data);
    Assoc(FieldLines(fields), CRLF, data);
  }

  lemma FileFieldsAreHonest(headers: Entries, contentType: string, n: nat, cookies: Entries)
    requires FileWellformed(headers, contentType, cookies) && n < 0x8000_0000
    ensures var fields := FileFields(headers, contentType, n, cookies);
            && Field("Content-Type", contentType) in fields && Field("Content-Length", Decimal(n)) in fields
            && (forall f :: f in headers && f.name !in {"Content-Type", "Content-Length", "Server"} ==> f in fields)
            && fields != [] && AllValid(fields)
            && Frame(AllCanonical(fields)) == Some(Framing(false, Some(n)))
  {
    IntCastExactly(n);
    LengthFieldIsHonest(n);
    ServerFieldIsHonest(n);
    TypeFieldIs(contentType, n);
    HonestButLength(headers, contentType, cookies, n);
    FileSteps("Content-Length", "Content-Type", "Server", contentType, SERVER_VERSION, Decimal(n), headers, n);
    CookieFieldIsHonest(cookies, n);
    HonestFields(FinalHeaders(FileHeaders(headers, contentType, Decimal(n)), "", true), cookies, n);
  }

  /** The announced length is the true one exactly for files below 2 GiB. */
  lemma FileLengthExactly(headers: Entries, contentType: string, n: nat, cookies: Entries)
    requires Sorted(headers)
    ensures Field("Content-Length", Decimal(n)) in FileFields(headers, contentType, n, cookies) <==> n < 0x8000_0000
  {
    IntCastExactly(n);
    TextOfInt(IntCast(n), n);
    OnlyLength("Content-Length", "Content-Type", "Server", contentType, SERVER_VERSION, IntText(IntCast(n)),
               Decimal(n), headers);
  }

  lemma OnlyLength(L: string, T: string, S: string, type_: string, version: string, text: string, num: string,
                   headers: Entries)
    requires Sorted(headers) && L != S
    ensures Field(L, num) in Put(Put(Put(headers, T, type_), L, text), S, version) <==> text == num
  {
    PutKeeps(headers, T, type_);
    PutKeeps(Put(headers, T, type_), L, text);
    PutKeeps(Put(Put(headers, T, type_), L, text), S, version);
  }

  lemma TypeFieldIs(contentType: string, n: nat)
    requires FieldChars(contentType)
    ensures HonestField(Field("Content-Type", contentType), n)
  {
    assert TokenChars("Content-Type");
    HonestByLength(Field("Content-Type", contentType), n);
  }

  lemma HonestButLength(headers: Entries, contentType: string, cookies: Entries, n: nat)
    requires FileWellformed(headers, contentType, cookies)
    ensures HonestBut("Content-Length", headers, n)
  {
    forall f | f in headers && f.name != "Content-Length" ensures HonestField(f, n) {
      var k :| 0 <= k < |headers| && headers[k] == f;
      assert ValidField(headers[k]);
    }
  }

  lemma FileSteps(L: string, T: string, S: string, type_: string, version: string, num: string,
                  headers: Entries, n: nat)
    requires Sorted(headers) && HonestBut(L, headers, n)
    requires L != T && L != S && T != S && num != ""
    requires HonestField(Field(T, type_), n) && HonestField(Field(S, version), n) && HonestField(Field(L, num), n)
    ensures var h := Put(Put(Put(headers, T, type_), L, num), S, version);
            && AllHonest(h, n) && Field(L, num) in h && Field(T, type_) in h
            && forall f :: f in headers && f.name !in {T, L, S} ==> f in h
  {
    PutHonest(L, headers, T, type_, n);
    PutKeeps(headers, T, type_);
    var h1 := Put(headers, T, type_);
    PutHonest(L, h1, L, num, n);
    PutKeeps(h1, L, num);
    var h2 := Put(h1, L, num);
    PutHonest(L, h2, S, version, n);
    PutKeeps(h2, S, version);
    GetIsMember(Put(h2, S, version), L);
  }

  /** A status outside the table is printed as an empty line, which the client refuses. */
  lemma UnknownStatusIsRefused(code: int, fields: seq<Field>, message: string, cut: seq<string>)
    requires Reason(code).None?
    requires cut != [] && Find(cut[0], HEADER_END).Some?
    requires Flatten(cut) == ResponseText(StatusText(code), fields, message)
    ensures ReceiveAll(Fresh, cut) == Threw
  {
    var first := cut[0];
    var head := first[..Find(first, HEADER_END).value + 2];
    assert first[0] == Flatten(cut)[0] == '\r';
    assert head[0] == '\r';
    assert Version(head).None? by { assert |head| >= 8 ==> head[..5][0] == head[0]; }
    ReceiveAllStops(Threw, cut[1..]);
  }
}
