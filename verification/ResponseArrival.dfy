/** How a response arrives: where its header block ends, and what becomes of its body. */
module ResponseArrival {
  import opened Wrappers
  import opened Text
  import opened Sequences
  import opened Numbers
  import opened HttpParsers
  import opened ChunkedDecoder
  import opened ResponseReader

  // ---- Where the header block ends

  /** Every line with its line end. */
  function Join(lines: seq<string>): string {
    if lines == [] then "" else lines[0] + (CRLF + Join(lines[1..]))
  }

  ghost predicate PlainLine(line: string) {
    line != "" && forall j :: 0 <= j < |line| ==> line[j] != '\r'
  }

  /** The first empty line is the one behind the last line, whatever follows it. */
  lemma {:induction false} BlockEnds(lines: seq<string>, message: string)
    requires lines != [] && forall k :: 0 <= k < |lines| ==> PlainLine(lines[k])
    ensures |Join(lines)| >= 2
    ensures Find(Join(lines) + (CRLF + message), HEADER_END) == Some(|Join(lines)| - 2)
    decreases |lines|
  {
    assert PlainLine(lines[0]);
    var joined := Join(lines[1..]);
    assert Join(lines) == lines[0] + (CRLF + joined);
    if |lines| == 1 {
      assert joined == "";
      OneLineEnds(lines[0], message);
    } else {
      BlockEnds(lines[1..], message);
      assert PlainLine(lines[1]);
      assert joined[0] == lines[1][0];
      MoreLinesEnd(lines[0], joined, message);
    }
  }

  lemma OneLineEnds(line: string, message: string)
    requires PlainLine(line)
    ensures Find(line + (CRLF + "") + (CRLF + message), HEADER_END) == Some(|line + (CRLF + "")| - 2)
  {
    Nested(line, CRLF, "", CRLF + message);
    assert "" + (CRLF + message) == CRLF + message;
    EndsHere(line, message);
  }

  lemma {:induction false} MoreLinesEnd(line: string, joined: string, message: string)
    requires PlainLine(line) && |joined| >= 2 && joined[0] != '\r'
    requires Find(joined + (CRLF + message), HEADER_END) == Some(|joined| - 2)
    ensures Find(line + (CRLF + joined) + (CRLF + message), HEADER_END) == Some(|line + (CRLF + joined)| - 2)
  {
    Nested(line, CRLF, joined, CRLF + message);
    EndsLater(line, joined + (CRLF + message));
  }

  lemma DropLine(line: string, crlf: string, rest: string)
    ensures |line + (crlf + rest)| == |line| + |crlf| + |rest|
    ensures (line + (crlf + rest))[|line| + |crlf|..] == rest
  {
  }

  lemma {:induction false} EndsLater(line: string, rest: string)
    requires PlainLine(line) && rest != "" && rest[0] != '\r' && Find(rest, HEADER_END).Some?
    ensures Find(line + (CRLF + rest), HEADER_END) == Some(|line| + 2 + Find(rest, HEADER_END).value)
  {
    NotAtThisLine(line, rest);
    DropLine(line, CRLF, rest);
    FindSkip(line + (CRLF + rest), HEADER_END, |line| + 2);
  }

  lemma NotBefore(line: string, rest: string)
    requires PlainLine(line)
    ensures forall j :: 0 <= j < |line| ==> !Occurs(line + (CRLF + rest), HEADER_END, j)
  {
    var s := line + (CRLF + rest);
    forall j | 0 <= j < |line| ensures !Occurs(s, HEADER_END, j) {
      if Occurs(s, HEADER_END, j) { OccursAt(s, HEADER_END, j, 0); }
    }
  }

  lemma EndsHere(line: string, message: string)
    requires PlainLine(line)
    ensures Find(line + (CRLF + (CRLF + message)), HEADER_END) == Some(|line|)
  {
    var s := line + (CRLF + (CRLF + message));
    NotBefore(line, CRLF + message);
    assert s[|line|..|line| + 4] == HEADER_END;
    FindIs(s, HEADER_END, |line|);
  }

  lemma NotAtThisLine(line: string, rest: string)
    requires PlainLine(line) && rest != "" && rest[0] != '\r'
    ensures forall j :: 0 <= j < |line| + 2 ==> !Occurs(line + (CRLF + rest), HEADER_END, j)
  {
    var s, n := line + (CRLF + rest), |line|;
    NotBefore(line, rest);
    if Occurs(s, HEADER_END, n) { OccursAt(s, HEADER_END, n, 2); }
    if Occurs(s, HEADER_END, n + 1) { OccursAt(s, HEADER_END, n + 1, 0); }
  }

  /** The lines of a response, without their line ends. */
  function FieldText(f: Field): string { f.name + (": " + f.value) }

  function FieldTexts(fields: seq<Field>): seq<string> {
    if fields == [] then [] else [FieldText(fields[0])] + FieldTexts(fields[1..])
  }

  lemma {:induction false} FieldTextsJoin(fields: seq<Field>)
    requires AllValid(fields)
    ensures Join(FieldTexts(fields)) == FieldLines(fields)
    ensures |FieldTexts(fields)| == |fields|
    ensures forall k :: 0 <= k < |fields| ==> PlainLine(FieldTexts(fields)[k])
  {
    if fields != [] {
      FieldTextsJoin(fields[1..]);
      assert FieldTexts(fields)[1..] == FieldTexts(fields[1..]);
      var f := fields[0];
      assert ValidField(f);
      assert FieldLine(f) + FieldLines(fields[1..]) == FieldText(f) + (CRLF + FieldLines(fields[1..]));
      FieldTextIsPlain(f);
    }
  }

  lemma FieldTextIsPlain(f: Field)
    requires ValidField(f)
    ensures PlainLine(FieldText(f))
  {
    var t, n := FieldText(f), |f.name|;
    forall j | 0 <= j < |t| ensures t[j] != '\r' {
      if j < n { assert t[j] == f.name[j]; }
      else if j >= n + 2 { assert t[j] == f.value[j - n - 2]; }
    }
  }

  // ---- The whole response

  /** A status line, header fields, an empty line and a body. */
  function Whole(line: string, fields: seq<Field>, body: string): string {
    line + (CRLF + FieldLines(fields)) + (CRLF + body)
  }

  lemma {:induction false} WholeEnds(line: string, fields: seq<Field>, body: string)
    requires PlainLine(line) && AllValid(fields)
    ensures Find(Whole(line, fields, body), HEADER_END) == Some(|line + (CRLF + FieldLines(fields))| - 2)
  {
    FieldTextsJoin(fields);
    var lines := [line] + FieldTexts(fields);
    assert lines[1..] == FieldTexts(fields);
    BlockEnds(lines, body);
  }

  /** A printed header section behind any status line: it parses exactly when there is a field at
      all and the fields give a framing. */
  lemma HeadParsesExactly(line: string, status: Status, fields: seq<Field>)
    requires StatusLine(line + FieldLines(fields)) == Ok(status, |line|) && AllValid(fields)
    ensures ParseHead(line + FieldLines(fields))
         == if fields == [] || Frame(AllCanonical(fields)).None? then None
            else Some(Head(status, AllCanonical(fields), Frame(AllCanonical(fields)).value))
  {
    var s := line + FieldLines(fields);
    assert s[|line|..] == FieldLines(fields);
    if fields == [] {
      assert HeaderSection(s, |s|).None?;
    } else {
      HeaderRoundTrip(s, |line|, fields);
    }
  }

  lemma FirstSliceSplits(cut: seq<string>, block: string, message: string)
    requires cut != [] && Flatten(cut) == block + (CRLF + message) && |block| >= 2
    requires Find(cut[0], HEADER_END).Some? && Find(block + (CRLF + message), HEADER_END) == Some(|block| - 2)
    ensures Find(cut[0], HEADER_END) == Some(|block| - 2) && |cut[0]| >= |block| + 2
    ensures cut[0][..|block|] == block
    ensures cut[0][|block| + 2..] + Flatten(cut[1..]) == message
  {
    var first, more := cut[0], Flatten(cut[1..]);
    FindExtend(first, HEADER_END, more);
    SplitAgain(first, more, block, message);
  }

  lemma SplitAgain(first: string, more: string, block: string, message: string)
    requires first + more == block + (CRLF + message) && |first| >= |block| + 2
    ensures first[..|block|] == block && first[|block| + 2..] + more == message
  {
    assert first[..|block|] == (first + more)[..|block|];
    assert first[|block| + 2..] + more == (first + more)[|block| + 2..];
    TakeDrop(block, CRLF + message);
    TakeDrop(block + CRLF, message);
    assert block + CRLF + message == block + (CRLF + message);
  }

  lemma MessageArrives(h: Head, rest: string, more: seq<string>, message: string)
    requires h.framing == Framing(false, Some(|message|)) && rest + Flatten(more) == message
    ensures ReceiveAll(Enter(h, rest), more) == Returned(Response(Some(h.status), h.fields, message))
  {
    var pieces := [rest] + more;
    assert pieces[..1] == [rest] && pieces[1..] == more && Flatten([rest]) == rest + "" == rest;
    assert Flatten(pieces) == message;
    PiecesAreCollected(h.status, h.fields, |message|, pieces, 1);
    ReachedFirst(pieces, |message|, 1);
    assert pieces[..|pieces|] == pieces;
    var n := Reached(pieces, |message|, 1).value;
    FlattenGrows(pieces, n, |pieces|);
  }

  /** The response as `cut` delivers it: the header block in the first slice, the body anyhow. */
  ghost predicate Delivers(cut: seq<string>, line: string, status: Status, fields: seq<Field>, body: string) {
    && PlainLine(line) && StatusLine(line + (CRLF + FieldLines(fields))) == Ok(status, |line| + 2)
    && AllValid(fields) && fields != []
    && cut != [] && Find(cut[0], HEADER_END).Some?
    && Flatten(cut) == Whole(line, fields, body)
  }

  /** The first slice is parsed, and what is behind its header block is the beginning of the body. */
  lemma {:induction false} FirstSliceEnters(cut: seq<string>, line: string, status: Status, fields: seq<Field>,
                                           body: string, fr: Framing)
    returns (rest: string)
    requires Delivers(cut, line, status, fields, body) && Frame(AllCanonical(fields)) == Some(fr)
    ensures rest + Flatten(cut[1..]) == body
    ensures ReceiveAll(Fresh, cut) == ReceiveAll(Enter(Head(status, AllCanonical(fields), fr), rest), cut[1..])
  {
    DeliveredText(cut, line, fields, body);
    BlockIsHead(line, status, fields, fr);
    rest := EntersWith(cut, line + (CRLF + FieldLines(fields)), body, Head(status, AllCanonical(fields), fr));
  }

  lemma {:induction false} DeliveredText(cut: seq<string>, line: string, fields: seq<Field>, body: string)
    requires PlainLine(line) && AllValid(fields) && Flatten(cut) == Whole(line, fields, body)
    ensures var block := line + (CRLF + FieldLines(fields));
            && |block| >= 2 && Flatten(cut) == block + (CRLF + body)
            && Find(block + (CRLF + body), HEADER_END) == Some(|block| - 2)
  {
    WholeEnds(line, fields, body);
  }

  lemma {:induction false} EntersWith(cut: seq<string>, block: string, body: string, h: Head) returns (rest: string)
    requires cut != [] && |block| >= 2 && Flatten(cut) == block + (CRLF + body) && ParseHead(block) == Some(h)
    requires Find(cut[0], HEADER_END).Some? && Find(block + (CRLF + body), HEADER_END) == Some(|block| - 2)
    ensures rest + Flatten(cut[1..]) == body
    ensures ReceiveAll(Fresh, cut) == ReceiveAll(Enter(h, rest), cut[1..])
  {
    FirstSliceSplits(cut, block, body);
    rest := cut[0][|block| + 2..];
    BlockEnters(cut, block, rest, h);
  }

  lemma {:induction false} BlockIsHead(line: string, status: Status, fields: seq<Field>, fr: Framing)
    requires StatusLine(line + (CRLF + FieldLines(fields))) == Ok(status, |line| + 2)
    requires AllValid(fields) && fields != [] && Frame(AllCanonical(fields)) == Some(fr)
    ensures ParseHead(line + (CRLF + FieldLines(fields))) == Some(Head(status, AllCanonical(fields), fr))
  {
    Assoc(line, CRLF, FieldLines(fields));
    HeadParsesExactly(line + CRLF, status, fields);
  }

  lemma {:induction false} BlockEnters(cut: seq<string>, block: string, rest: string, h: Head)
    requires cut != [] && |block| >= 2 && |block| + 2 <= |cut[0]| && Find(cut[0], HEADER_END) == Some(|block| - 2)
    requires cut[0][..|block|] == block && rest == cut[0][|block| + 2..] && ParseHead(block) == Some(h)
    ensures ReceiveAll(Fresh, cut) == ReceiveAll(Enter(h, rest), cut[1..])
  {
    FirstRead(cut[0], |block| - 2, Some(h));
  }

  /** Under Content-Length: the body, whole, under every cut. */
  lemma LengthArrives(line: string, status: Status, fields: seq<Field>, body: string, cut: seq<string>)
    requires Delivers(cut, line, status, fields, body)
    requires Frame(AllCanonical(fields)) == Some(Framing(false, Some(|body|)))
    ensures ReceiveAll(Fresh, cut) == Returned(Response(Some(status), AllCanonical(fields), body))
  {
    var fr := Framing(false, Some(|body|));
    var rest := FirstSliceEnters(cut, line, status, fields, body, fr);
    MessageArrives(Head(status, AllCanonical(fields), fr), rest, cut[1..], body);
  }

  /** In chunks: the data of the chunks, under every cut. */
  lemma ChunksArrive(line: string, status: Status, fields: seq<Field>, length: Option<nat>, chunks: seq<Chunk>,
                     last: string, tail: string, cut: seq<string>)
    requires Delivers(cut, line, status, fields, Wire(chunks, last, tail))
    requires Frame(AllCanonical(fields)) == Some(Framing(true, length))
    requires AllAnnounce(chunks) && Terminates(last)
    ensures ReceiveAll(Fresh, cut) == Returned(Response(Some(status), AllCanonical(fields), Payload(chunks)))
  {
    var fr := Framing(true, length);
    var rest := FirstSliceEnters(cut, line, status, fields, Wire(chunks, last, tail), fr);
    EnterChunked(Head(status, AllCanonical(fields), fr), rest);
    ChunksAreFed(status, AllCanonical(fields), Drain(rest, 0, false, ""), cut[1..]);
    FedRest(rest, cut[1..]);
    DrainWire(chunks, last, tail, "");
    assert "" + Payload(chunks) == Payload(chunks);
  }

  /** A malformed chunk is an exception, under every cut. */
  lemma BadChunksThrow(line: string, status: Status, fields: seq<Field>, length: Option<nat>, chunks: seq<Chunk>,
                       bad: string, cut: seq<string>)
    requires Delivers(cut, line, status, fields, Lead(chunks, bad))
    requires Frame(AllCanonical(fields)) == Some(Framing(true, length))
    requires AllAnnounce(chunks) && IsBad(bad)
    ensures ReceiveAll(Fresh, cut) == Threw
  {
    var fr := Framing(true, length);
    var rest := FirstSliceEnters(cut, line, status, fields, Lead(chunks, bad), fr);
    EnterChunked(Head(status, AllCanonical(fields), fr), rest);
    ChunksAreFed(status, AllCanonical(fields), Drain(rest, 0, false, ""), cut[1..]);
    FedRest(rest, cut[1..]);
    DrainLead(chunks, bad, "");
  }

  /** Without chunks, and with no length or a longer one: nothing is returned before the peer closes, and
      then all octets behind the header block are. */
  lemma ClosingDelivers(line: string, status: Status, fields: seq<Field>, length: Option<nat>, body: string,
                        cut: seq<string>)
    requires Delivers(cut, line, status, fields, body)
    requires Frame(AllCanonical(fields)) == Some(Framing(false, length)) && (length.Some? ==> |body| < length.value)
    ensures ReceiveAll(Fresh, cut) == InBody(status, AllCanonical(fields), length, body)
    ensures Disconnect(ReceiveAll(Fresh, cut)) == Returned(Response(Some(status), AllCanonical(fields), body))
  {
    var rest := FirstSliceEnters(cut, line, status, fields, body, Framing(false, length));
    KeepsCollecting(status, AllCanonical(fields), length, rest, cut[1..]);
  }

  lemma {:induction false} KeepsCollecting(status: Status, fields: seq<Field>, length: Option<nat>, body: string,
                                           slices: seq<string>)
    requires length.Some? ==> |body + Flatten(slices)| < length.value
    ensures ReceiveAll(Collect(status, fields, length, body), slices)
         == InBody(status, fields, length, body + Flatten(slices))
    decreases |slices|
  {
    if slices == [] {
      assert body + "" == body;
    } else {
      Assoc(body, slices[0], Flatten(slices[1..]));
      KeepsCollecting(status, fields, length, body + slices[0], slices[1..]);
    }
  }

  /** A first slice without the end of the header block: nothing is waited for. */
  lemma HeaderMustComeFirst(slices: seq<string>)
    requires slices != [] && Find(slices[0], HEADER_END).None?
    ensures ReceiveAll(Fresh, slices) == Returned(Response(None, [], ""))
  {
    ReceiveAllStops(Returned(Blank), slices[1..]);
  }

  /** Chunks that end too early: what has arrived is returned when the peer closes. */
  lemma ClosedInChunks(status: Status, fields: seq<Field>, data: string, expected: nat, owed: bool, body: string)
    ensures Disconnect(InChunks(status, fields, Reading(data, expected, owed, body)))
         == Returned(Response(Some(status), fields, body))
  {
  }

  /** `recv` reports the end by a slice of length zero; what may come behind it is not read. */
  lemma {:induction false} UntilClosedExactly(slices: seq<string>, more: seq<string>)
    requires forall k :: 0 <= k < |slices| ==> slices[k] != ""
    ensures UntilClosed(slices) == slices && UntilClosed(slices + ([""] + more)) == slices
  {
    if slices == [] {
      assert slices + ([""] + more) == [""] + more;
    } else {
      UntilClosedExactly(slices[1..], more);
      assert (slices + ([""] + more))[1..] == slices[1..] + ([""] + more);
    }
  }
}
