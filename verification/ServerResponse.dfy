/** `Response` of the server: the status line, the header map, the cookie line and the message. The
    text is printed by `generateResponse`, which completes the header map first; a file is announced
    here and sent behind the text. */
module ServerResponse {
  import opened Wrappers
  import opened Text
  import opened Numbers
  import opened HttpParsers
  import opened StringMap

  const SERVER_VERSION := "Soria/0.0.2b (Unix)"

  /** The reason phrases of `httpStatus::Code`. */
  function Reason(code: int): Option<string> {
    match code
    case 200 => Some("OK") case 201 => Some("Created") case 202 => Some("Accepted")
    case 204 => Some("No Content") case 300 => Some("Multiple Choices")
    case 301 => Some("Moved Permanently") case 302 => Some("Found") case 303 => Some("See Other")
    case 304 => Some("Not Modified") case 307 => Some("Temporary Redirect")
    case 308 => Some("Permanent Redirect") case 400 => Some("Bad Request")
    case 401 => Some("Unauthorized") case 403 => Some("Forbidden") case 404 => Some("Not Found")
    case 405 => Some("Method Not Allowed") case 500 => Some("Internal Server Error")
    case 501 => Some("Not Implemented") case 503 => Some("Service Unavailable")
    case _ => None
  }

  /** `httpStatus::Code[code]`: the empty string for a code that is not in the table. */
  function StatusText(code: int): string {
    match Reason(code)
    case None => ""
    case Some(reason) => if code < 0 then "" else "HTTP/1.1 " + (Decimal(code) + (" " + reason))
  }

  /** The headers a response is printed with. */
  function FinalHeaders(headers: Entries, message: string, isFile: bool): Entries {
    var h1 := if !isFile && message != "" then Put(headers, "Content-Length", Decimal(|message|)) else headers;
    var h2 := if !isFile && Get(h1, "Content-Type") == "" then Put(h1, "Content-Type", "text/html") else h1;
    var h3 := if !isFile && Get(h2, "Content-Length") == "" then Put(h2, "Content-Length", "0") else h2;
    Put(h3, "Server", SERVER_VERSION)
  }

  /** The headers of a response that announces a file, which is sent behind it. */
  function FileHeaders(headers: Entries, contentType: string, length: string): Entries {
    Put(Put(headers, "Content-Type", contentType), "Content-Length", length)
  }

  // ---- The table, in the words of section 6.1 of RFC 7231 and of RFC 7538

  lemma ReasonsOfSuccess()
    ensures Reason(200) == Some("OK") && Reason(201) == Some("Created") && Reason(202) == Some("Accepted")
    ensures Reason(204) == Some("No Content") && Reason(300) == Some("Multiple Choices")
    ensures Reason(301) == Some("Moved Permanently") && Reason(302) == Some("Found")
    ensures Reason(303) == Some("See Other") && Reason(304) == Some("Not Modified")
    ensures Reason(307) == Some("Temporary Redirect") && Reason(308) == Some("Permanent Redirect")
  {
  }

  lemma ReasonsOfErrors()
    ensures Reason(400) == Some("Bad Request") && Reason(401) == Some("Unauthorized")
    ensures Reason(403) == Some("Forbidden") && Reason(404) == Some("Not Found")
    ensures Reason(405) == Some("Method Not Allowed") && Reason(500) == Some("Internal Server Error")
    ensures Reason(501) == Some("Not Implemented") && Reason(503) == Some("Service Unavailable")
  {
  }

  lemma KnownCodes(code: int)
    ensures Reason(code).Some? <==>
            code in {200, 201, 202, 204, 300, 301, 302, 303, 304, 307, 308, 400, 401, 403, 404, 405, 500, 501, 503}
  {
  }

  // ---- What becomes of the headers a handler sets

  /** The value under `key` once the length `L`, the type `T` and the server `S` are completed. */
  function Completed(L: string, T: string, S: string, num: string, type_: string, version: string, zero: string,
                     h: Entries, empty: bool, key: string): string {
    if key == S then version
    else if key == L then if !empty then num else if Get(h, L) == "" then zero else Get(h, L)
    else if key == T then if Get(h, T) == "" then type_ else Get(h, T)
    else Get(h, key)
  }

  ghost predicate SameBut(L: string, T: string, S: string, h: Entries, r: Entries) {
    forall f: Field :: f.name != L && f.name != T && f.name != S ==> (f in r <==> f in h)
  }

  /** Three keys are completed, and every other entry is printed as the handler set it. */
  lemma FinalHeadersExactly(h: Entries, message: string)
    requires Sorted(h)
    ensures var r := FinalHeaders(h, message, false);
            && Sorted(r) && SameBut("Content-Length", "Content-Type", "Server", h, r)
            && forall key :: Get(r, key) == Completed("Content-Length", "Content-Type", "Server", Decimal(|message|),
                               "text/html", "Soria/0.0.2b (Unix)", "0", h, message == "", key)
  {
    var r := CompletedExactly("Content-Length", "Content-Type", "Server", Decimal(|message|), "text/html",
                              "Soria/0.0.2b (Unix)", "0", h, message == "");
    assert r == FinalHeaders(h, message, false);
  }

  /** A file response is printed with every header as it was set, and the server. */
  lemma FileHeadersExactly(h: Entries, message: string)
    requires Sorted(h)
    ensures var r := FinalHeaders(h, message, true);
            && Sorted(r) && (forall f: Field :: f.name != "Server" ==> (f in r <==> f in h))
            && forall key :: Get(r, key) == if key == "Server" then "Soria/0.0.2b (Unix)" else Get(h, key)
  {
    PutKeeps(h, "Server", SERVER_VERSION);
  }

  lemma {:induction false} CompletedExactly(L: string, T: string, S: string, num: string, type_: string,
                                           version: string, zero: string, h: Entries, empty: bool) returns (r: Entries)
    requires Sorted(h) && L != T && L != S && T != S && num != ""
    ensures var h1 := if !empty then Put(h, L, num) else h;
            var h2 := if Get(h1, T) == "" then Put(h1, T, type_) else h1;
            var h3 := if Get(h2, L) == "" then Put(h2, L, zero) else h2;
            r == Put(h3, S, version)
    ensures Sorted(r) && SameBut(L, T, S, h, r)
    ensures forall key :: Get(r, key) == Completed(L, T, S, num, type_, version, zero, h, empty, key)
  {
    var h1 := PutIf(!empty, h, L, num);
    var h2 := PutIf(Get(h1, T) == "", h1, T, type_);
    var h3 := PutIf(Get(h2, L) == "", h2, L, zero);
    r := PutIf(true, h3, S, version);
    SameButJoined(L, T, S, h, h1, h2, h3, r);
  }

  lemma PutIf(yes: bool, es: Entries, key: string, value: string) returns (r: Entries)
    requires Sorted(es)
    ensures r == if yes then Put(es, key, value) else es
    ensures Sorted(r) && SameBut(key, key, key, es, r)
    ensures forall k :: Get(r, k) == if yes && k == key then value else Get(es, k)
  {
    PutKeeps(es, key, value);
    r := if yes then Put(es, key, value) else es;
  }

  lemma SameButJoined(L: string, T: string, S: string, h: Entries, h1: Entries, h2: Entries, h3: Entries, r: Entries)
    requires SameBut(L, L, L, h, h1) && SameBut(T, T, T, h1, h2) && SameBut(L, L, L, h2, h3) && SameBut(S, S, S, h3, r)
    ensures SameBut(L, T, S, h, r)
  {
  }

  /** `name=value; ` for every cookie: the value of the one Set-Cookie line. */
  function CookieValue(cookies: Entries): string {
    if cookies == [] then ""
    else cookies[0].name + ("=" + (cookies[0].value + ("; " + CookieValue(cookies[1..]))))
  }

  lemma {:induction false} CookieValueAppend(cookies: Entries, c: Field)
    ensures CookieValue(cookies + [c]) == CookieValue(cookies) + (c.name + ("=" + (c.value + "; ")))
  {
    if cookies == [] {
      assert CookieValue([c][1..]) == "";
      assert "; " + "" == "; ";
    } else {
      assert (cookies + [c])[1..] == cookies[1..] + [c];
      CookieValueAppend(cookies[1..], c);
      var v, w := CookieValue(cookies[1..]), c.name + ("=" + (c.value + "; "));
      assert cookies[0].name + ("=" + (cookies[0].value + ("; " + (v + w))))
          == cookies[0].name + ("=" + (cookies[0].value + ("; " + v))) + w;
    }
  }

  /** A reader of such a text: a name up to the first `=`, a value up to the next `; `. */
  function ReadCookies(text: string): seq<Field>
    decreases |text|
  {
    match Find(text, "=")
    case None => []
    case Some(i) =>
      match Find(text[i + 1..], "; ")
      case None => []
      case Some(j) => [Field(text[..i], text[i + 1..][..j])] + ReadCookies(text[i + 1..][j + 2..])
  }

  ghost predicate Lacks(s: string, c: char) { forall i :: 0 <= i < |s| ==> s[i] != c }

  lemma FindFirst(s: string, p: string, rest: string)
    requires p != "" && Lacks(s, p[0])
    ensures Find(s + (p + rest), p) == Some(|s|)
  {
    var t := s + (p + rest);
    assert t[|s|..|s| + |p|] == p;
    forall j | 0 <= j < |s| ensures !Occurs(t, p, j) {
      assert t[j] == s[j];
      assert j + |p| <= |t| ==> t[j..j + |p|][0] == t[j];
    }
    FindIs(t, p, |s|);
  }

  /** The cookies can be read off the line again, if no name has a `=` and no value a `;`. */
  lemma {:induction false} CookiesReadBack(cookies: Entries)
    requires forall k :: 0 <= k < |cookies| ==> Lacks(cookies[k].name, '=') && Lacks(cookies[k].value, ';')
    ensures ReadCookies(CookieValue(cookies)) == cookies
  {
    if cookies != [] {
      CookiesReadBack(cookies[1..]);
      OneReadBack(cookies[0].name, cookies[0].value, CookieValue(cookies[1..]));
      assert cookies == [cookies[0]] + cookies[1..];
    }
  }

  lemma OneReadBack(name: string, value: string, more: string)
    requires Lacks(name, '=') && Lacks(value, ';')
    ensures ReadCookies(name + ("=" + (value + ("; " + more)))) == [Field(name, value)] + ReadCookies(more)
  {
    var text := name + ("=" + (value + ("; " + more)));
    FindFirst(name, "=", value + ("; " + more));
    assert text[|name| + 1..] == value + ("; " + more) && text[..|name|] == name;
    FindFirst(value, "; ", more);
    assert (value + ("; " + more))[|value| + 2..] == more && (value + ("; " + more))[..|value|] == value;
  }

  function AllFields(headers: Entries, cookies: Entries): seq<Field> {
    headers + [Field("Set-Cookie", CookieValue(cookies))]
  }

  function ResponseText(statusText: string, fields: seq<Field>, message: string): string {
    statusText + (CRLF + (FieldLines(fields) + (CRLF + message)))
  }

  class Response {
    var statusText: string
    var statusCode: int
    var message: string
    var headers: Entries
    var cookies: Entries
    var isFile: bool

    constructor (responseMessage: string, responseCode: int, headers: Entries)
      ensures statusText == StatusText(responseCode) && statusCode == responseCode
      ensures message == responseMessage && this.headers == headers && cookies == [] && !isFile
    {
      statusText, statusCode, message := StatusText(responseCode), responseCode, responseMessage;
      this.headers, cookies, isFile := headers, [], false;
    }

    method AddSessionCookie(key: string, sessionId: string)
      modifies this`cookies
      ensures cookies == Put(old(cookies), key, sessionId)
    {
      cookies := Put(cookies, key, sessionId);
    }

    method SetIsFile(contentType: string, fileLength: int)
      modifies this`headers, this`isFile
      ensures isFile && headers == FileHeaders(old(headers), contentType, IntText(fileLength))
    {
      isFile := true;
      headers := Put(headers, "Content-Type", contentType);
      headers := Put(headers, "Content-Length", IntText(fileLength));
    }

    /** The loop over the header map. */
    static method PrintFields(fields: seq<Field>) returns (lines: string)
      ensures lines == FieldLines(fields)
    {
      var k := 0;
      lines := "";
      while k < |fields|
        invariant 0 <= k <= |fields| && lines == FieldLines(fields[..k])
      {
        assert fields[..k + 1] == fields[..k] + [fields[k]];
        FieldLinesAppend(fields[..k], fields[k]);
        lines := lines + (fields[k].name + (": " + (fields[k].value + CRLF)));
        k := k + 1;
      }
      assert fields[..k] == fields;
    }

    /** The loop over the cookie map. */
    static method PrintCookies(cookies: seq<Field>) returns (data: string)
      ensures data == CookieValue(cookies)
    {
      var k := 0;
      data := "";
      while k < |cookies|
        invariant 0 <= k <= |cookies| && data == CookieValue(cookies[..k])
      {
        assert cookies[..k + 1] == cookies[..k] + [cookies[k]];
        CookieValueAppend(cookies[..k], cookies[k]);
        data := data + (cookies[k].name + ("=" + (cookies[k].value + "; ")));
        k := k + 1;
      }
      assert cookies[..k] == cookies;
    }

    /** `generateResponse`. */
    method GenerateResponse() returns (r: string)
      modifies this`headers
      ensures headers == FinalHeaders(old(headers), message, isFile)
      ensures r == ResponseText(statusText, AllFields(headers, cookies), message)
    {
      if !isFile {
        if message != "" { headers := Put(headers, "Content-Length", Decimal(|message|)); }
        if Get(headers, "Content-Type") == "" { headers := Put(headers, "Content-Type", "text/html"); }
        if Get(headers, "Content-Length") == "" { headers := Put(headers, "Content-Length", "0"); }
      }
      headers := Put(headers, "Server", SERVER_VERSION);
      var lines := PrintFields(headers);
      var cookiesData := PrintCookies(cookies);
      FieldLinesAppend(headers, Field("Set-Cookie", cookiesData));
      return statusText + (CRLF + (lines + ("Set-Cookie" + (": " + (cookiesData + CRLF))) + (CRLF + message)));
    }
  }
}

/** A `std::map<std::string, std::string>`: entries in strictly increasing key order. */
module StringMap {
  import opened HttpParsers

  type Entries = seq<Field>

  /** `operator<` of `std::string`. */
  predicate Less(a: string, b: string) {
    b != "" && (a == "" || a[0] < b[0] || (a[0] == b[0] && Less(a[1..], b[1..])))
  }

  /** It is the order of the first character that differs; a string comes before what it begins. */
  lemma {:induction false} LessExactly(front: string, a: string, b: string)
    requires a == "" || b == "" || a[0] != b[0]
    ensures Less(front + a, front + b) <==> b != "" && (a == "" || (a[0] as int) < b[0] as int)
  {
    if front == "" {
      assert front + a == a && front + b == b;
    } else {
      assert (front + a)[1..] == front[1..] + a && (front + b)[1..] == front[1..] + b;
      LessExactly(front[1..], a, b);
    }
  }

  ghost predicate Sorted(es: Entries) {
    forall i, j :: 0 <= i < j < |es| ==> Less(es[i].name, es[j].name)
  }

  function Get(es: Entries, key: string): string {
    if es == [] then "" else if es[0].name == key then es[0].value else Get(es[1..], key)
  }

  /** `m[key] = value`. */
  function Put(es: Entries, key: string, value: string): Entries {
    if es == [] || Less(key, es[0].name) then [Field(key, value)] + es
    else if es[0].name == key then [Field(key, value)] + es[1..]
    else [es[0]] + Put(es[1..], key, value)
  }

  lemma {:induction false} LessIsOrder(a: string, b: string, c: string)
    ensures !Less(a, a)
    ensures a != b ==> Less(a, b) != Less(b, a)
    ensures Less(a, b) && Less(b, c) ==> Less(a, c)
  {
    if a != "" { LessIsOrder(a[1..], if b == "" then "" else b[1..], if c == "" then "" else c[1..]); }
    if a != "" && b != "" { assert a == [a[0]] + a[1..] && b == [b[0]] + b[1..]; }
  }

  /** An assignment keeps the order, sets its key and leaves every other key alone. */
  lemma {:induction false} PutKeeps(es: Entries, key: string, value: string)
    requires Sorted(es)
    ensures Sorted(Put(es, key, value))
    ensures forall k :: Get(Put(es, key, value), k) == if k == key then value else Get(es, k)
    ensures forall f :: f in Put(es, key, value) <==> f == Field(key, value) || (f in es && f.name != key)
  {
    if es == [] {
    } else if Less(key, es[0].name) {
      forall i | 0 <= i < |es| ensures Less(key, es[i].name) { LessIsOrder(key, es[0].name, es[i].name); }
      AbsentKey(es, key);
    } else if es[0].name == key {
      LessIsOrder(key, key, key);
      assert es == [es[0]] + es[1..];
      AbsentKey(es[1..], key);
    } else {
      PutKeeps(es[1..], key, value);
      LessIsOrder(key, es[0].name, key);
      assert es == [es[0]] + es[1..];
      var rest := Put(es[1..], key, value);
      forall i | 0 <= i < |rest| ensures Less(es[0].name, rest[i].name) {
        assert rest[i] in rest;
        if rest[i] in es[1..] {
          var j :| 0 <= j < |es[1..]| && es[1..][j] == rest[i];
          assert es[j + 1] == rest[i];
        }
      }
    }
  }

  /** A lookup finds the one entry of its key. */
  lemma {:induction false} GetIsMember(es: Entries, key: string)
    requires Sorted(es)
    ensures forall f :: f in es && f.name == key ==> f.value == Get(es, key)
    ensures Get(es, key) != "" ==> Field(key, Get(es, key)) in es
  {
    if es != [] {
      assert es == [es[0]] + es[1..];
      if es[0].name == key {
        AbsentKey(es[1..], key);
      } else {
        GetIsMember(es[1..], key);
      }
    }
  }

  lemma {:induction false} AbsentKey(es: Entries, key: string)
    requires forall i :: 0 <= i < |es| ==> Less(key, es[i].name)
    ensures Get(es, key) == "" && forall f :: f in es ==> f.name != key
  {
    if es != [] {
      LessIsOrder(key, key, key);
      AbsentKey(es[1..], key);
      assert es == [es[0]] + es[1..];
    }
  }
}
