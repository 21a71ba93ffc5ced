/** Chunked bodies, however they are cut. */
module ChunkedDecoder {
  import opened Wrappers
  import opened Text
  import opened Numbers
  import opened Sequences

  /** The body loop: a buffer, the number of octets the current chunk still owes, whether the CRLF behind
      a chunk is owed, and the body so far. */
  datatype Machine =
    | Reading(data: string, expected: nat, crlfOwed: bool, body: string)
    | Finished(body: string)
    | Rejected

  /** The state in which `send` enters the loop, with what the header block left in the buffer. */
  function Start(data: string): Machine { Reading(data, 0, false, "") }

  /** One pass of the inner loop: it runs until it starves, finishes or throws. */
  ghost function Drain(data: string, expected: nat, crlfOwed: bool, body: string): Machine
    decreases |data|
  {
    if expected > 0 then
      var toWrite := if expected < |data| then expected else |data|;
      var owed := crlfOwed || expected == toWrite;
      if toWrite == |data| then Reading("", expected - toWrite, owed, body + data)
      else Drain(data[toWrite..], expected - toWrite, owed, body + data[..toWrite])
    else if crlfOwed && |data| < 2 then Reading(data, 0, true, body)
    else if crlfOwed && data[..2] != CRLF then Rejected
    else
      var rest := if crlfOwed then data[2..] else data;
      match Find(rest, CRLF)
      case None => Reading(rest, 0, false, body)
      case Some(i) =>
        match HexOf(rest[..i])
        case None => Rejected
        case Some(n) => if n == 0 then Finished(body) else Drain(rest[i + 2..], n, false, body)
  }

  /** The inner loop as written: it terminates because the buffer shrinks on every pass that
      continues. */
  method DrainLoop(m: Machine) returns (r: Machine)
    requires m.Reading?
    ensures r == Drain(m.data, m.expected, m.crlfOwed, m.body)
  {
    var responseData, removeCrlfAfterChunk, body := m.data, m.crlfOwed, m.body;
    var expectedChunkSize: nat := m.expected;
    while true
      invariant Drain(responseData, expectedChunkSize, removeCrlfAfterChunk, body)
             == Drain(m.data, m.expected, m.crlfOwed, m.body)
      decreases |responseData|
    {
      if expectedChunkSize > 0 {
        var toWrite := if expectedChunkSize < |responseData| then expectedChunkSize else |responseData|;
        ghost var before := responseData;
        body := body + responseData[..toWrite];
        responseData := responseData[toWrite..];
        expectedChunkSize := expectedChunkSize - toWrite;
        if expectedChunkSize == 0 { removeCrlfAfterChunk := true; }
        if responseData == "" {
          assert before[..toWrite] == before;
          return Reading(responseData, expectedChunkSize, removeCrlfAfterChunk, body);
        }
      } else {
        if removeCrlfAfterChunk {
          if |responseData| < 2 {
            return Reading(responseData, 0, removeCrlfAfterChunk, body);
          }
          if responseData[..2] != CRLF {
            return Rejected;
          }
          removeCrlfAfterChunk := false;
          responseData := responseData[2..];
        }
        var i := Find(responseData, CRLF);
        if i.None? {
          return Reading(responseData, 0, false, body);
        }
        var size := HexStringToUint(responseData[..i.value]);
        if size.None? {
          return Rejected;
        }
        expectedChunkSize := size.value;
        responseData := responseData[i.value + 2..];
        if expectedChunkSize == 0 {
          return Finished(body);
        }
      }
    }
  }

  /** One `recv`: the octets are appended and the loop runs again. */
  ghost function Feed(m: Machine, slice: string): Machine {
    if m.Reading? then Drain(m.data + slice, m.expected, m.crlfOwed, m.body) else m
  }

  ghost function FeedAll(m: Machine, slices: seq<string>): Machine
    decreases |slices|
  {
    if slices == [] then m else FeedAll(Feed(m, slices[0]), slices[1..])
  }

  // ---- The three moves of the loop

  /** A size line holds no CR, so the search for CRLF stops exactly behind it. */
  lemma SizeLineEnds(size: string, rest: string)
    requires AllHex(size)
    ensures Find(size + (CRLF + rest), CRLF) == Some(|size|)
  {
    var s := size + (CRLF + rest);
    assert s[|size|..|size| + 2] == CRLF;
    forall j | 0 <= j < |size| ensures !Occurs(s, CRLF, j) {
      assert s[j] == size[j];
      assert j + 2 <= |s| ==> s[j..j + 2][0] == s[j];
    }
    FindIs(s, CRLF, |size|);
  }

  lemma DrainSizeLine(size: string, rest: string, body: string)
    requires AllHex(size)
    ensures Drain(size + (CRLF + rest), 0, false, body)
         == var n := Value(16, size) % SIZE_LIMIT; if n == 0 then Finished(body) else Drain(rest, n, false, body)
  {
    SizeLineEnds(size, rest);
    TakeDrop(size, CRLF + rest);
    assert (size + (CRLF + rest))[|size| + 2..] == rest;
  }

  lemma DrainData(data: string, rest: string, body: string)
    requires data != ""
    ensures Drain(data + rest, |data|, false, body) == Drain(rest, 0, true, body + data)
  {
    TakeDrop(data, rest);
    if rest == "" { assert data + rest == data; }
  }

  lemma DrainCrlf(rest: string, body: string)
    ensures Drain(CRLF + rest, 0, true, body) == Drain(rest, 0, false, body)
  {
    TakeDrop(CRLF, rest);
  }

  // ---- Segmentation independence

  lemma OwedLineEnd(data: string, body: string)
    requires |data| >= 2
    ensures Drain(data, 0, true, body) == if data[..2] == CRLF then Drain(data[2..], 0, false, body) else Rejected
  {
  }

  /** Starving and then receiving `t` is the same as having had `t` from the start. */
  lemma {:induction false} DrainResume(data: string, expected: nat, owed: bool, body: string, t: string)
    ensures Feed(Drain(data, expected, owed, body), t) == Drain(data + t, expected, owed, body)
    decreases |data|, 2
  {
    if expected > 0 {
      ResumeInsideChunk(data, expected, owed, body, t);
    } else if owed {
      if |data| >= 2 {
        CutAppended(data, t, 2);
        OwedLineEnd(data, body);
        OwedLineEnd(data + t, body);
        if data[..2] == CRLF { ResumeAtSizeLine(data[2..], body, t); }
      }
    } else {
      ResumeAtSizeLine(data, body, t);
    }
  }

  lemma {:induction false} ResumeAtSizeLine(data: string, body: string, t: string)
    ensures Feed(Drain(data, 0, false, body), t) == Drain(data + t, 0, false, body)
    decreases |data|, 1
  {
    var i := Find(data, CRLF);
    if i.Some? {
      FindExtend(data, CRLF, t);
      CutAppended(data, t, i.value);
      CutAppended(data, t, i.value + 2);
      var n := HexOf(data[..i.value]);
      if n.Some? && n.value != 0 {
        DrainResume(data[i.value + 2..], n.value, false, body, t);
      }
    }
  }

  lemma {:induction false} ResumeInsideChunk(data: string, expected: nat, owed: bool, body: string, t: string)
    requires expected > 0
    ensures Feed(Drain(data, expected, owed, body), t) == Drain(data + t, expected, owed, body)
    decreases |data|, 0
  {
    if expected < |data| {
      CutAppended(data, t, expected);
      DrainResume(data[expected..], 0, true, body + data[..expected], t);
    } else {
      StarveInsideChunk(data, expected, owed, body, t);
    }
  }

  lemma StarveInsideChunk(data: string, expected: nat, owed: bool, body: string, t: string)
    requires expected >= |data| && expected > 0
    ensures Feed(Drain(data, expected, owed, body), t) == Drain(data + t, expected, owed, body)
  {
    var left := expected - |data|;
    assert "" + t == t;
    TakeDrop(data, t);
    if left == 0 {
      assert t == "" ==> data + t == data;
    } else if left < |t| {
      assert (data + t)[..expected] == data + t[..left] && (data + t)[expected..] == t[left..];
      Assoc(body, data, t[..left]);
    } else {
      Assoc(body, data, t);
    }
  }

  /** Every non-empty way of cutting the input ends in the same machine as one big read. */
  lemma {:induction false} FeedAllIsOneFeed(m: Machine, slices: seq<string>)
    requires slices != []
    ensures FeedAll(m, slices) == Feed(m, Flatten(slices))
    decreases |slices|
  {
    if |slices| == 1 {
      assert slices[0] + "" == slices[0];
      assert FeedAll(m, slices) == FeedAll(Feed(m, slices[0]), []);
    } else {
      FeedAllIsOneFeed(Feed(m, slices[0]), slices[1..]);
      FeedTwice(m, slices[0], Flatten(slices[1..]));
    }
  }

  lemma FeedTwice(m: Machine, a: string, b: string)
    ensures Feed(Feed(m, a), b) == Feed(m, a + b)
  {
    if m.Reading? {
      DrainResume(m.data + a, m.expected, m.crlfOwed, m.body, b);
      Assoc(m.data, a, b);
    }
  }

  /** Two cuts of one stream: same outcome, same body and, while unfinished, the same buffer,
      outstanding size and owed CRLF. */
  lemma SegmentationIndependence(m: Machine, cut1: seq<string>, cut2: seq<string>)
    requires cut1 != [] && cut2 != [] && Flatten(cut1) == Flatten(cut2)
    ensures FeedAll(m, cut1) == FeedAll(m, cut2)
  {
    FeedAllIsOneFeed(m, cut1);
    FeedAllIsOneFeed(m, cut2);
  }

  // ---- What the machine accepts

  /** A chunk as it stands on the wire: the size line, and the data it announces. */
  datatype Chunk = Chunk(size: string, data: string)

  /** A list of chunks, the last size line, and `tail`. */
  ghost function Wire(chunks: seq<Chunk>, last: string, tail: string): string {
    if chunks == [] then last + (CRLF + tail)
    else chunks[0].size + (CRLF + (chunks[0].data + (CRLF + Wire(chunks[1..], last, tail))))
  }

  ghost function Payload(chunks: seq<Chunk>): string {
    if chunks == [] then "" else chunks[0].data + Payload(chunks[1..])
  }

  /** What the code takes for a chunk: the size line is read modulo 2^64. */
  ghost predicate Announces(c: Chunk) {
    AllHex(c.size) && Value(16, c.size) % SIZE_LIMIT == |c.data| > 0
  }

  /** What the code takes for the last size line; the empty line is one. */
  ghost predicate Terminates(last: string) {
    AllHex(last) && Value(16, last) % SIZE_LIMIT == 0
  }

  ghost predicate AllAnnounce(chunks: seq<Chunk>) {
    forall k :: 0 <= k < |chunks| ==> Announces(chunks[k])
  }

  /** `stream` is a chunked body that carries `body`; whatever follows the last size line is
      ignored. */
  ghost predicate Carries(stream: string, chunks: seq<Chunk>, last: string, tail: string, body: string) {
    && AllAnnounce(chunks)
    && Terminates(last)
    && stream == Wire(chunks, last, tail)
    && body == Payload(chunks)
  }

  lemma {:induction false} DrainWire(chunks: seq<Chunk>, last: string, tail: string, body: string)
    requires AllAnnounce(chunks) && Terminates(last)
    ensures Drain(Wire(chunks, last, tail), 0, false, body) == Finished(body + Payload(chunks))
    decreases |chunks|
  {
    if chunks == [] {
      DrainSizeLine(last, tail, body);
      assert body + "" == body;
    } else {
      var c := chunks[0];
      var rest := Wire(chunks[1..], last, tail);
      assert Announces(c);
      DrainSizeLine(c.size, c.data + (CRLF + rest), body);
      DrainData(c.data, CRLF + rest, body);
      DrainCrlf(rest, body + c.data);
      DrainWire(chunks[1..], last, tail, body + c.data);
      Assoc(body, c.data, Payload(chunks[1..]));
    }
  }

  /** A chunk at the front, with octets behind it, and what the machine makes of it. */
  lemma TakeChunk(stream: string, body: string, i: nat, n: nat) returns (c: Chunk, behind: string)
    requires Find(stream, CRLF) == Some(i) && HexOf(stream[..i]) == Some(n) && 0 < n < |stream| - i - 2
    ensures Announces(c) && behind != "" && stream == c.size + (CRLF + (c.data + behind))
    ensures Drain(stream, 0, false, body) == Drain(behind, 0, true, body + c.data)
  {
    Found(stream, CRLF);
    var rest := stream[i + 2..];
    DrainSizeLine(stream[..i], rest, body);
    Rejoined(rest, n);
    DrainData(rest[..n], rest[n..], body);
    c, behind := Chunk(stream[..i], rest[..n]), rest[n..];
  }

  /** Reading the chunks back off a stream the machine finished on. */
  lemma {:induction false} DrainFinished(stream: string, body: string)
    returns (chunks: seq<Chunk>, last: string, tail: string)
    requires Drain(stream, 0, false, body).Finished?
    ensures AllAnnounce(chunks) && Terminates(last) && stream == Wire(chunks, last, tail)
    decreases |stream|
  {
    var i := Find(stream, CRLF).value;
    var n := HexOf(stream[..i]).value;
    if n == 0 {
      Found(stream, CRLF);
      return [], stream[..i], stream[i + 2..];
    }
    var c, behind := TakeChunk(stream, body, i, n);
    Rejoined(behind, 2);
    assert behind[..2] == CRLF;
    DrainCrlf(behind[2..], body + c.data);
    var cs, l, t := DrainFinished(behind[2..], body + c.data);
    chunks, last, tail := [c] + cs, l, t;
    WireCons(c, cs, l, t);
  }

  lemma WireCons(c: Chunk, chunks: seq<Chunk>, last: string, tail: string)
    ensures Wire([c] + chunks, last, tail) == c.size + (CRLF + (c.data + (CRLF + Wire(chunks, last, tail))))
    ensures Announces(c) && AllAnnounce(chunks) ==> AllAnnounce([c] + chunks)
  {
    assert ([c] + chunks)[1..] == chunks;
  }

  /** The loop decodes exactly the chunked coding it reads: it finishes with `body` if and only if
      the stream is a list of chunks carrying `body`, a terminating size line, and anything. */
  lemma DecodesExactly(stream: string, body: string)
    ensures Feed(Start(""), stream) == Finished(body)
       <==> exists chunks, last, tail :: Carries(stream, chunks, last, tail, body)
  {
    assert "" + stream == stream;
    if Drain(stream, 0, false, "") == Finished(body) {
      var chunks, last, tail := DrainFinished(stream, "");
      DrainWire(chunks, last, tail, "");
      assert "" + Payload(chunks) == Payload(chunks);
      assert Carries(stream, chunks, last, tail, body);
    }
    forall chunks, last, tail | Carries(stream, chunks, last, tail, body)
      ensures Drain(stream, 0, false, "") == Finished(body)
    {
      DrainWire(chunks, last, tail, "");
      assert "" + Payload(chunks) == Payload(chunks);
    }
  }

  // ---- RFC 7230, section 4.1

  /** A chunk of section 4.1 of RFC 7230 without extensions: `chunk-size = 1*HEXDIG`, not zero,
      and as many octets as it says. Either case of hex digit is allowed. */
  ghost predicate RfcChunk(c: Chunk) {
    c.size != "" && AllHex(c.size) && Value(16, c.size) == |c.data| > 0
  }

  /** `last-chunk = 1*("0")`. */
  ghost predicate RfcLastChunk(last: string) {
    last != "" && forall k :: 0 <= k < |last| ==> last[k] == '0'
  }

  lemma {:induction false} ZerosAreZero(s: string)
    requires forall k :: 0 <= k < |s| ==> s[k] == '0'
    ensures AllHex(s) && Value(16, s) == 0
  {
    if s != "" { ZerosAreZero(s[..|s| - 1]); }
  }

  /** Every chunked body of RFC 7230 whose sizes fit a `size_t` is decoded to the concatenation of
      its chunks, however it is cut into reads. */
  lemma DecodesRfcBodies(chunks: seq<Chunk>, last: string, tail: string, slices: seq<string>)
    requires forall k :: 0 <= k < |chunks| ==> RfcChunk(chunks[k]) && |chunks[k].data| < SIZE_LIMIT
    requires RfcLastChunk(last)
    requires slices != [] && Flatten(slices) == Wire(chunks, last, tail)
    ensures FeedAll(Start(""), slices) == Finished(Payload(chunks))
  {
    ZerosAreZero(last);
    assert AllAnnounce(chunks) by {
      forall k | 0 <= k < |chunks| ensures Announces(chunks[k]) { RfcChunkAnnounces(chunks[k]); }
    }
    assert Carries(Flatten(slices), chunks, last, tail, Payload(chunks));
    DecodesExactly(Flatten(slices), Payload(chunks));
    FeedAllIsOneFeed(Start(""), slices);
  }

  lemma RfcChunkAnnounces(c: Chunk)
    requires RfcChunk(c) && |c.data| < SIZE_LIMIT
    ensures Announces(c)
  {
  }

  /** Where code and section 4.1 differ about size lines that fit a `size_t`: only the empty line,
      which the code takes for a last chunk. Sizes of 2^64 and more wrap and are accepted. */
  lemma {:induction false} LastChunkExactly(last: string)
    requires AllHex(last) && Value(16, last) < SIZE_LIMIT
    ensures Terminates(last) <==> RfcLastChunk(last) || last == ""
  {
    if Value(16, last) == 0 { ZeroMeansZeros(last); } else if RfcLastChunk(last) { ZerosAreZero(last); }
  }

  lemma {:induction false} ZeroMeansZeros(s: string)
    requires AllHex(s) && Value(16, s) == 0
    ensures forall k :: 0 <= k < |s| ==> s[k] == '0'
  {
    if s != "" {
      ZeroMeansZeros(s[..|s| - 1]);
      assert DigitValue(s[|s| - 1]) == 0;
    }
  }

  /** A stream is cut into chunks in one way only. */
  lemma SameFronts(a: string, sep: string, b: string, a': string, b': string)
    requires a + (sep + b) == a' + (sep + b') && |a| == |a'|
    ensures a == a' && b == b'
  {
    TakeDrop(a, sep + b);
    TakeDrop(a', sep + b');
    TakeDrop(sep, b);
    TakeDrop(sep, b');
  }

  lemma {:induction false} WireIsPrefixFree(cs: seq<Chunk>, l: string, t: string, ds: seq<Chunk>, m: string, u: string)
    requires AllAnnounce(cs) && Terminates(l) && AllAnnounce(ds) && Terminates(m)
    requires Wire(cs, l, t) == Wire(ds, m, u)
    ensures cs == ds && l == m && t == u
    decreases |cs|
  {
    var size, rest := FirstLine(cs, l, t);
    var size', rest' := FirstLine(ds, m, u);
    SameFronts(size, CRLF, rest, size', rest');
    if cs != [] {
      assert Announces(cs[0]) && (ds != [] ==> Announces(ds[0]));
      var c', d' := Wire(cs[1..], l, t), Wire(ds[1..], m, u);
      SameFronts(cs[0].data, CRLF, c', ds[0].data, d');
      WireIsPrefixFree(cs[1..], l, t, ds[1..], m, u);
      assert cs == [cs[0]] + cs[1..] && ds == [ds[0]] + ds[1..];
    }
  }

  lemma FirstLine(cs: seq<Chunk>, l: string, t: string) returns (size: string, rest: string)
    requires AllAnnounce(cs) && Terminates(l)
    ensures Wire(cs, l, t) == size + (CRLF + rest) && AllHex(size)
    ensures Find(Wire(cs, l, t), CRLF) == Some(|size|)
    ensures cs == [] ==> size == l && rest == t
    ensures cs != [] ==> size == cs[0].size && rest == cs[0].data + (CRLF + Wire(cs[1..], l, t))
  {
    if cs == [] {
      size, rest := l, t;
    } else {
      assert Announces(cs[0]);
      size, rest := cs[0].size, cs[0].data + (CRLF + Wire(cs[1..], l, t));
    }
    SizeLineEnds(size, rest);
  }

  lemma {:induction false} WireAppend(cs: seq<Chunk>, l: string, t: string, u: string)
    ensures Wire(cs, l, t) + u == Wire(cs, l, t + u)
  {
    if cs == [] {
      assert l + (CRLF + t) + u == l + (CRLF + (t + u));
    } else {
      WireAppend(cs[1..], l, t, u);
      var w := Wire(cs[1..], l, t);
      assert cs[0].size + (CRLF + (cs[0].data + (CRLF + w))) + u
          == cs[0].size + (CRLF + (cs[0].data + (CRLF + (w + u))));
    }
  }

  /** No read that stops inside a well-formed body is ever refused or taken for the end. */
  lemma PrefixesKeepReading(chunks: seq<Chunk>, last: string, prefix: string)
    requires AllAnnounce(chunks) && Terminates(last)
    requires prefix < Wire(chunks, last, "")
    ensures Feed(Start(""), prefix).Reading?
  {
    var whole := Wire(chunks, last, "");
    var t := whole[|prefix|..];
    assert whole == prefix + t && "" + prefix == prefix;
    DrainWire(chunks, last, "", "");
    DrainResume(prefix, 0, false, "", t);
    if Drain(prefix, 0, false, "").Finished? {
      var cs, l, u := DrainFinished(prefix, "");
      WireAppend(cs, l, u, t);
      WireIsPrefixFree(cs, l, u + t, chunks, last, "");
      assert false;
    }
  }

  // ---- What the machine refuses

  /** The chunks, and whatever is behind them. */
  ghost function Lead(chunks: seq<Chunk>, rest: string): string {
    if chunks == [] then rest
    else chunks[0].size + (CRLF + (chunks[0].data + (CRLF + Lead(chunks[1..], rest))))
  }

  /** A line that should be a size and is not in hex. */
  ghost predicate BadSize(rest: string) {
    Find(rest, CRLF).Some? && !AllHex(rest[..Find(rest, CRLF).value])
  }

  /** A chunk that is followed by two octets other than CR LF. */
  ghost predicate BadEnd(rest: string, c: Chunk, behind: string) {
    Announces(c) && |behind| >= 2 && behind[..2] != CRLF && rest == c.size + (CRLF + (c.data + behind))
  }

  ghost predicate IsBad(rest: string) {
    BadSize(rest) || exists c, behind :: BadEnd(rest, c, behind)
  }

  ghost predicate Refuses(stream: string, chunks: seq<Chunk>, rest: string) {
    AllAnnounce(chunks) && stream == Lead(chunks, rest) && IsBad(rest)
  }

  lemma DrainBad(rest: string, body: string)
    requires IsBad(rest)
    ensures Drain(rest, 0, false, body) == Rejected
  {
    if !BadSize(rest) {
      var c, behind :| BadEnd(rest, c, behind);
      DrainSizeLine(c.size, c.data + behind, body);
      DrainData(c.data, behind, body);
    }
  }

  lemma {:induction false} DrainLead(chunks: seq<Chunk>, rest: string, body: string)
    requires AllAnnounce(chunks) && IsBad(rest)
    ensures Drain(Lead(chunks, rest), 0, false, body) == Rejected
    decreases |chunks|
  {
    if chunks == [] {
      DrainBad(rest, body);
    } else {
      var c, more := chunks[0], Lead(chunks[1..], rest);
      assert Announces(c);
      DrainSizeLine(c.size, c.data + (CRLF + more), body);
      DrainData(c.data, CRLF + more, body);
      DrainCrlf(more, body + c.data);
      DrainLead(chunks[1..], rest, body + c.data);
    }
  }

  lemma LeadCons(c: Chunk, chunks: seq<Chunk>, rest: string)
    ensures Lead([c] + chunks, rest) == c.size + (CRLF + (c.data + (CRLF + Lead(chunks, rest))))
    ensures Announces(c) && AllAnnounce(chunks) ==> AllAnnounce([c] + chunks)
  {
    assert ([c] + chunks)[1..] == chunks;
  }

  lemma {:induction false} DrainRefused(stream: string, body: string) returns (chunks: seq<Chunk>, rest: string)
    requires Drain(stream, 0, false, body).Rejected?
    ensures Refuses(stream, chunks, rest)
    decreases |stream|
  {
    var i := Find(stream, CRLF).value;
    if !AllHex(stream[..i]) { return [], stream; }
    var c, behind := TakeChunk(stream, body, i, HexOf(stream[..i]).value);
    if behind[..2] != CRLF {
      assert BadEnd(stream, c, behind);
      return [], stream;
    }
    Rejoined(behind, 2);
    DrainCrlf(behind[2..], body + c.data);
    var cs, r := DrainRefused(behind[2..], body + c.data);
    chunks, rest := [c] + cs, r;
    LeadCons(c, cs, r);
  }

  /** The loop throws exactly on a stream that goes wrong behind some chunks: a size line that is not
      hex, or a chunk without its line end. */
  lemma RejectsExactly(stream: string)
    ensures Feed(Start(""), stream) == Rejected <==> exists chunks, rest :: Refuses(stream, chunks, rest)
  {
    assert "" + stream == stream;
    if Drain(stream, 0, false, "") == Rejected { var chunks, rest := DrainRefused(stream, ""); }
    forall chunks, rest | Refuses(stream, chunks, rest) ensures Drain(stream, 0, false, "") == Rejected {
      DrainLead(chunks, rest, "");
    }
  }

  // ---- A sender

  /** A sender's printer: sizes in hex with the digits of a table. */
  function Encode(pieces: seq<string>, table: string): string
    requires IsTable(table)
  {
    if pieces == [] then "0" + (CRLF + CRLF)
    else Hex(table, |pieces[0]|) + (CRLF + (pieces[0] + (CRLF + Encode(pieces[1..], table))))
  }

  ghost function ChunksOf(pieces: seq<string>, table: string): seq<Chunk>
    requires IsTable(table)
  {
    if pieces == [] then []
    else [Chunk(Hex(table, |pieces[0]|), pieces[0])] + ChunksOf(pieces[1..], table)
  }

  /** Printing pieces as chunks, with sizes in lower or upper case, and decoding them gives their
      concatenation back, for every cut. */
  lemma EncodeRoundTrip(pieces: seq<string>, table: string, slices: seq<string>)
    requires forall k :: 0 <= k < |pieces| ==> 0 < |pieces[k]| < SIZE_LIMIT
    requires table == "0123456789abcdef" || table == "0123456789ABCDEF"
    ensures IsTable(table)
    ensures slices != [] && Flatten(slices) == Encode(pieces, table)
            ==> FeedAll(Start(""), slices) == Finished(Flatten(pieces))
  {
    TablesCount();
    if slices != [] && Flatten(slices) == Encode(pieces, table) {
      EncodeIsWire(pieces, table);
      DecodesRfcBodies(ChunksOf(pieces, table), "0", CRLF, slices);
    }
  }

  lemma {:induction false} EncodeIsWire(pieces: seq<string>, table: string)
    requires IsTable(table) && forall k :: 0 <= k < |pieces| ==> 0 < |pieces[k]| < SIZE_LIMIT
    ensures forall k :: 0 <= k < |ChunksOf(pieces, table)| ==>
              RfcChunk(ChunksOf(pieces, table)[k]) && |ChunksOf(pieces, table)[k].data| < SIZE_LIMIT
    ensures Encode(pieces, table) == Wire(ChunksOf(pieces, table), "0", CRLF)
    ensures Payload(ChunksOf(pieces, table)) == Flatten(pieces)
  {
    if pieces != [] {
      EncodeIsWire(pieces[1..], table);
      assert ChunksOf(pieces, table)[1..] == ChunksOf(pieces[1..], table);
    }
  }
}
