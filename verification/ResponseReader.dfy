/** The reading half of `Request::send`. */
module ResponseReader {
  import opened Wrappers
  import opened Text
  import opened Sequences
  import opened Numbers
  import opened HttpParsers
  import opened ChunkedDecoder

  const HEADER_END := "\r\n\r\n"

  /** `status` is `None` while the field of the C++ struct is still indeterminate. */
  datatype Response = Response(status: Option<Status>, fields: seq<Field>, body: string)

  const Blank := Response(None, [], "")

  // ---- The header block

  datatype Framing = Framing(chunked: bool, length: Option<nat>)

  datatype Head = Head(status: Status, fields: seq<Field>, framing: Framing)

  /** What one parsed field does to the framing; `None` is the thrown `ResponseError`. */
  ghost function FrameStep(fr: Framing, f: Field): Option<Framing> {
    if f.name == "transfer-encoding" then
      if f.value == "chunked" then Some(fr.(chunked := true)) else None
    else if f.name == "content-length" then
      match DecimalOf(f.value)
      case None => None
      case Some(n) => Some(fr.(length := Some(n)))
    else Some(fr)
  }

  /** The framing after a list of fields: the last Content-Length wins. */
  ghost function Frame(fields: seq<Field>): Option<Framing> {
    if fields == [] then Some(Framing(false, None))
    else
      match Frame(fields[..|fields| - 1])
      case None => None
      case Some(fr) => FrameStep(fr, fields[|fields| - 1])
  }

  ghost function ParseHead(s: string): Option<Head> {
    match StatusLine(s)
    case Thrown => None
    case Ok(status, e) =>
      match HeaderSection(s, e)
      case None => None
      case Some(fields) =>
        match Frame(fields)
        case None => None
        case Some(fr) => Some(Head(status, fields, fr))
  }

  lemma {:induction false} FrameFailsForGood(a: seq<Field>, b: seq<Field>)
    requires Frame(a).None?
    ensures Frame(a + b).None?
    decreases |b|
  {
    if b == [] {
      assert a + b == a;
    } else {
      FrameFailsForGood(a, b[..|b| - 1]);
      assert (a + b)[..|a + b| - 1] == a + b[..|b| - 1];
    }
  }

  lemma FrameSnoc(a: seq<Field>, f: Field)
    ensures Frame(a + [f]) == if Frame(a).None? then None else FrameStep(Frame(a).value, f)
  {
    assert (a + [f])[..|a|] == a;
  }

  /** A field that the header loop does not throw on. */
  ghost predicate Framable(f: Field) {
    && (f.name == "transfer-encoding" ==> f.value == "chunked")
    && (f.name == "content-length" ==> AllDigits(f.value))
  }

  ghost predicate LastLength(fields: seq<Field>, k: int) {
    0 <= k < |fields| && fields[k].name == "content-length"
    && forall j :: k < j < |fields| ==> fields[j].name != "content-length"
  }

  /** What a list of header fields means for the body: there is a framing exactly when every coding is
      "chunked" and every length is decimal; the body is chunked exactly when there is a coding, and
      its length is the last one given, modulo 2^64. */
  lemma {:induction false} FrameExactly(fields: seq<Field>)
    ensures Frame(fields).Some? <==> forall k :: 0 <= k < |fields| ==> Framable(fields[k])
    ensures Frame(fields).Some? ==>
              var fr := Frame(fields).value;
              && (fr.chunked <==> exists k :: 0 <= k < |fields| && fields[k].name == "transfer-encoding")
              && (fr.length.None? <==> forall k :: 0 <= k < |fields| ==> fields[k].name != "content-length")
              && forall k :: LastLength(fields, k) ==> fr.length == Some(Value(10, fields[k].value) % SIZE_LIMIT)
  {
    if fields != [] {
      var front, f := fields[..|fields| - 1], fields[|fields| - 1];
      FrameExactly(front);
      assert fields == front + [f];
      FrameSnoc(front, f);
    }
  }

  /** What the header loop ends with when it stands at `i` with `done` fields already read. */
  ghost function SectionFrom(s: string, i: nat, done: seq<Field>): Option<(seq<Field>, Framing)>
    requires i <= |s|
  {
    match HeaderSection(s, i)
    case None => None
    case Some(more) => WithFraming(done + more)
  }

  ghost function WithFraming(fields: seq<Field>): Option<(seq<Field>, Framing)> {
    match Frame(fields)
    case None => None
    case Some(fr) => Some((fields, fr))
  }

  lemma {:induction false} SectionFromStep(s: string, i: nat, done: seq<Field>)
    requires i <= |s|
    ensures HeaderField(s, i).Thrown? ==> SectionFrom(s, i, done) == None
    ensures HeaderField(s, i).Ok? ==>
              var Ok(f, e) := HeaderField(s, i);
              SectionFrom(s, i, done) == if e == |s| then WithFraming(done + [f]) else SectionFrom(s, e, done + [f])
  {
    if HeaderField(s, i).Ok? {
      var Ok(f, e) := HeaderField(s, i);
      if e < |s| { SectionFromMore(s, i, done, f, e); }
    }
  }

  lemma {:induction false} SectionFromMore(s: string, i: nat, done: seq<Field>, f: Field, e: nat)
    requires i <= |s| && HeaderField(s, i) == Ok(f, e) && e < |s|
    ensures SectionFrom(s, i, done) == SectionFrom(s, e, done + [f])
  {
    if HeaderSection(s, e).Some? {
      Assoc(done, [f], HeaderSection(s, e).value);
      assert HeaderSection(s, i) == Some([f] + HeaderSection(s, e).value);
    }
  }

  lemma SectionThrows(s: string, i: nat, done: seq<Field>)
    requires i <= |s| && Frame(done).None?
    ensures SectionFrom(s, i, done) == None
  {
    if HeaderSection(s, i).Some? { FrameFailsForGood(done, HeaderSection(s, i).value); }
  }

  /** The two headers the loop looks at. */
  method ApplyField(fr: Framing, f: Field) returns (r: Option<Framing>)
    ensures r == FrameStep(fr, f)
  {
    if f.name == "transfer-encoding" {
      if f.value != "chunked" { return None; }
      return Some(fr.(chunked := true));
    }
    if f.name == "content-length" {
      var length := StringToUint(f.value);
      if length.None? { return None; }
      return Some(fr.(length := length));
    }
    return Some(fr);
  }

  /** The header loop of `send`. */
  method ReadHead(s: string) returns (r: Option<Head>)
    ensures r == ParseHead(s)
  {
    var statusLine := ParseStatusLine(s);
    if statusLine.Thrown? { return None; }
    var i, fields: seq<Field>, framing := statusLine.end, [], Framing(false, None);
    assert ParseHead(s) == HeadOf(statusLine.value, SectionFrom(s, i, [])) by { FromTheStart(s, i); }
    while true
      invariant i <= |s|
      invariant SectionFrom(s, statusLine.end, []) == SectionFrom(s, i, fields)
      invariant Frame(fields) == Some(framing)
      decreases |s| - i
    {
      var field := ParseHeaderField(s, i);
      SectionFromStep(s, i, fields);
      if field.Thrown? { return None; }
      var next := ApplyField(framing, field.value);
      FrameSnoc(fields, field.value);
      fields := fields + [field.value];
      i := field.end;
      if next.None? {
        SectionThrows(s, i, fields);
        return None;
      }
      framing := next.value;
      if i == |s| { break; }
    }
    return Some(Head(statusLine.value, fields, framing));
  }

  ghost function HeadOf(status: Status, section: Option<(seq<Field>, Framing)>): Option<Head> {
    match section
    case None => None
    case Some((fields, fr)) => Some(Head(status, fields, fr))
  }

  lemma FromTheStart(s: string, i: nat)
    requires i <= |s|
    ensures SectionFrom(s, i, []) == if HeaderSection(s, i).None? then None else WithFraming(HeaderSection(s, i).value)
  {
    if HeaderSection(s, i).Some? {
      assert [] + HeaderSection(s, i).value == HeaderSection(s, i).value;
    }
  }

  // ---- The reader as a state machine

  /** What `send` makes of the octets that `recv` delivers, slice by slice. A slice of length zero, or
      the end of the list, is the peer closing the connection. */
  datatype Reader =
    | Fresh
    | InChunks(status: Status, fields: seq<Field>, machine: Machine)
    | InBody(status: Status, fields: seq<Field>, length: Option<nat>, body: string)
    | Returned(response: Response)
    | Threw

  function Settle(status: Status, fields: seq<Field>, m: Machine): Reader {
    match m
    case Reading(_, _, _, _) => InChunks(status, fields, m)
    case Finished(body) => Returned(Response(Some(status), fields, body))
    case Rejected => Threw
  }

  /** A body without chunks: returned once it is as long as Content-Length, never truncated. */
  function Collect(status: Status, fields: seq<Field>, length: Option<nat>, body: string): Reader {
    if length.Some? && |body| >= length.value then Returned(Response(Some(status), fields, body))
    else InBody(status, fields, length, body)
  }

  ghost function Enter(h: Head, rest: string): Reader {
    if h.framing.chunked then Settle(h.status, h.fields, Drain(rest, 0, false, ""))
    else Collect(h.status, h.fields, h.framing.length, rest)
  }

  /** Behind the header block: an exception, or the body. */
  ghost function Begin(h: Option<Head>, rest: string): Reader {
    if h.None? then Threw else Enter(h.value, rest)
  }

  /** One `recv`. A first slice without the whole header block makes `send` give up. */
  ghost function Receive(r: Reader, slice: string): Reader {
    match r
    case Fresh =>
      var i := Find(slice, HEADER_END);
      if i.None? then Returned(Blank) else Begin(ParseHead(slice[..i.value + 2]), slice[i.value + 4..])
    case InChunks(status, fields, m) => Settle(status, fields, Feed(m, slice))
    case InBody(status, fields, length, body) => Collect(status, fields, length, body + slice)
    case Returned(_) => r
    case Threw => r
  }

  ghost function ReceiveAll(r: Reader, slices: seq<string>): Reader
    decreases |slices|
  {
    if slices == [] then r else ReceiveAll(Receive(r, slices[0]), slices[1..])
  }

  /** The peer closes: `send` returns what it has. */
  function Disconnect(r: Reader): Reader {
    match r
    case Fresh => Returned(Blank)
    case InChunks(status, fields, m) =>
      (match m
       case Reading(_, _, _, body) => Returned(Response(Some(status), fields, body))
       case _ => r)
    case InBody(status, fields, _, body) => Returned(Response(Some(status), fields, body))
    case Returned(_) => r
    case Threw => r
  }

  /** The slices before the first empty one. */
  function UntilClosed(slices: seq<string>): seq<string> {
    if slices == [] || slices[0] == "" then [] else [slices[0]] + UntilClosed(slices[1..])
  }

  lemma {:induction false} ReceiveAllStops(r: Reader, slices: seq<string>)
    requires r.Returned? || r.Threw?
    ensures ReceiveAll(r, slices) == r
    decreases |slices|
  {
    if slices != [] { ReceiveAllStops(r, slices[1..]); }
  }

  lemma UntilClosedStep(r: Reader, slices: seq<string>)
    ensures slices == [] || slices[0] == "" ==> ReceiveAll(r, UntilClosed(slices)) == r
    ensures slices != [] && slices[0] != "" ==>
              ReceiveAll(r, UntilClosed(slices)) == ReceiveAll(Receive(r, slices[0]), UntilClosed(slices[1..]))
  {
    if slices != [] && slices[0] != "" {
      assert UntilClosed(slices)[1..] == UntilClosed(slices[1..]);
    }
  }

  /** The first slice: the header block, and the part of the body that came with it. */
  method RecvFirst(slice: string) returns (r: Reader)
    ensures r == Receive(Fresh, slice)
    ensures r.InChunks? ==> r.machine.Reading?
  {
    var end := Find(slice, HEADER_END);
    if end.None? { return Returned(Blank); }
    var head := ReadHead(slice[..end.value + 2]);
    if head.None? { return Threw; }
    r := RecvRest(head.value, slice[end.value + 4..]);
  }

  method RecvRest(h: Head, responseData: string) returns (r: Reader)
    ensures r == Enter(h, responseData)
    ensures r.InChunks? ==> r.machine.Reading?
  {
    if h.framing.chunked {
      var m := DrainLoop(Start(responseData));
      r := Settle(h.status, h.fields, m);
    } else {
      r := Collect(h.status, h.fields, h.framing.length, responseData);
    }
  }

  /** Any later slice. */
  method RecvMore(state: Reader, slice: string) returns (r: Reader)
    requires state.InBody? || (state.InChunks? && state.machine.Reading?)
    ensures r == Receive(state, slice)
    ensures r.InChunks? ==> r.machine.Reading?
  {
    if state.InChunks? {
      var m := DrainLoop(state.machine.(data := state.machine.data + slice));
      r := Settle(state.status, state.fields, m);
    } else {
      r := Collect(state.status, state.fields, state.length, state.body + slice);
    }
  }

  /** The read loop of `send`. */
  method Send(slices: seq<string>) returns (r: Reader)
    ensures r == Disconnect(ReceiveAll(Fresh, UntilClosed(slices)))
    ensures r.Returned? || r.Threw?
  {
    r := Fresh;
    var k := 0;
    while k < |slices|
      invariant 0 <= k <= |slices|
      invariant r.InChunks? ==> r.machine.Reading?
      invariant !r.Returned? && !r.Threw?
      invariant ReceiveAll(r, UntilClosed(slices[k..])) == ReceiveAll(Fresh, UntilClosed(slices))
    {
      UntilClosedStep(r, slices[k..]);
      if slices[k] == "" { return Disconnect(r); }
      assert slices[k..][1..] == slices[k + 1..];
      if r.Fresh? { r := RecvFirst(slices[k]); } else { r := RecvMore(r, slices[k]); }
      k := k + 1;
      if r.Returned? || r.Threw? {
        ReceiveAllStops(r, UntilClosed(slices[k..]));
        return;
      }
    }
    UntilClosedStep(r, slices[k..]);
    return Disconnect(r);
  }

  // ---- Does the cut matter?

  lemma {:induction false} ChunksAreFed(status: Status, fields: seq<Field>, m: Machine, slices: seq<string>)
    ensures ReceiveAll(Settle(status, fields, m), slices) == Settle(status, fields, FeedAll(m, slices))
    decreases |slices|
  {
    if slices == [] {
    } else if m.Reading? {
      ChunksAreFed(status, fields, Feed(m, slices[0]), slices[1..]);
    } else {
      ReceiveAllStops(Settle(status, fields, m), slices);
      ChunksAreFed(status, fields, m, slices[1..]);
      ReceiveAllStops(Settle(status, fields, m), slices[1..]);
    }
  }

  /** The whole response in one read announces a chunked body. */
  ghost predicate IsChunked(whole: string) {
    Find(whole, HEADER_END).Some? &&
    var h := ParseHead(whole[..Find(whole, HEADER_END).value + 2]);
    h.Some? && h.value.framing.chunked
  }

  lemma ChunkedIsNotBlank(whole: string)
    requires IsChunked(whole)
    ensures Receive(Fresh, whole) != Returned(Blank)
  {
  }

  /** For a chunked response every cut gives the result of one single read if, and only if, the
      first slice holds the whole header block. */
  lemma ChunkedCutsExactly(cut: seq<string>)
    requires cut != [] && IsChunked(Flatten(cut))
    ensures ReceiveAll(Fresh, cut) == Receive(Fresh, Flatten(cut)) <==> Find(cut[0], HEADER_END).Some?
  {
    if Find(cut[0], HEADER_END).None? {
      ReceiveAllStops(Returned(Blank), cut[1..]);
      ChunkedIsNotBlank(Flatten(cut));
    } else {
      ChunkedCuts(cut[0], cut[1..]);
    }
  }

  lemma SameHead(first: string, more: string)
    requires Find(first, HEADER_END).Some? && IsChunked(first + more)
    ensures var h := ParseHead(first[..Find(first, HEADER_END).value + 2]);
            h.Some? && h.value.framing.chunked
  {
    FindExtend(first, HEADER_END, more);
    var i := Find(first, HEADER_END).value;
    assert (first + more)[..i + 2] == first[..i + 2];
  }

  lemma ChunkedCuts(first: string, slices: seq<string>)
    requires Find(first, HEADER_END).Some? && IsChunked(first + Flatten(slices))
    ensures ReceiveAll(Receive(Fresh, first), slices) == Receive(Fresh, first + Flatten(slices))
  {
    SameHead(first, Flatten(slices));
    var i := Find(first, HEADER_END).value;
    ChunkedCutsBehind(first, slices, i, ParseHead(first[..i + 2]).value);
  }

  lemma ChunkedCutsBehind(first: string, slices: seq<string>, i: nat, h: Head)
    requires Find(first, HEADER_END) == Some(i) && ParseHead(first[..i + 2]) == Some(h) && h.framing.chunked
    ensures ReceiveAll(Receive(Fresh, first), slices) == Receive(Fresh, first + Flatten(slices))
  {
    var rest := first[i + 4..];
    HeaderThenMore(first, Flatten(slices), i, h);
    ChunksAreFed(h.status, h.fields, Drain(rest, 0, false, ""), slices);
    FedRest(rest, slices);
  }

  lemma FirstRead(s: string, i: nat, h: Option<Head>)
    requires Find(s, HEADER_END) == Some(i) && ParseHead(s[..i + 2]) == h
    ensures Receive(Fresh, s) == Begin(h, s[i + 4..])
  {
  }

  lemma EnterChunked(h: Head, rest: string)
    requires h.framing.chunked
    ensures Enter(h, rest) == Settle(h.status, h.fields, Drain(rest, 0, false, ""))
  {
    assert "" + rest == rest;
  }

  lemma HeaderThenMore(first: string, more: string, i: nat, h: Head)
    requires Find(first, HEADER_END) == Some(i) && ParseHead(first[..i + 2]) == Some(h) && h.framing.chunked
    ensures Receive(Fresh, first) == Settle(h.status, h.fields, Drain(first[i + 4..], 0, false, ""))
    ensures Receive(Fresh, first + more) == Settle(h.status, h.fields, Drain(first[i + 4..] + more, 0, false, ""))
  {
    FindExtend(first, HEADER_END, more);
    CutAppended(first, more, i + 2);
    CutAppended(first, more, i + 4);
    FirstRead(first, i, Some(h));
    FirstRead(first + more, i, Some(h));
    EnterChunked(h, first[i + 4..]);
    EnterChunked(h, first[i + 4..] + more);
  }

  lemma FedRest(rest: string, slices: seq<string>)
    ensures FeedAll(Drain(rest, 0, false, ""), slices) == Drain(rest + Flatten(slices), 0, false, "")
  {
    if slices == [] {
      assert rest + "" == rest;
    } else {
      DrainResume(rest, 0, false, "", Flatten(slices));
      FeedAllIsOneFeed(Drain(rest, 0, false, ""), slices);
    }
  }

  /** A body under Content-Length, handed over in pieces: `Some(k)` says that the first `k` pieces
      are the first to reach the length. */
  ghost function Reached(pieces: seq<string>, length: nat, k: nat): (r: Option<nat>)
    requires k <= |pieces|
    ensures r.Some? ==> k <= r.value <= |pieces|
    decreases |pieces| - k
  {
    if |Flatten(pieces[..k])| >= length then Some(k)
    else if k == |pieces| then None
    else Reached(pieces, length, k + 1)
  }

  lemma {:induction false} PiecesAreCollected(status: Status, fields: seq<Field>, length: nat,
                                             pieces: seq<string>, k: nat)
    requires 1 <= k <= |pieces|
    ensures var r := ReceiveAll(Collect(status, fields, Some(length), Flatten(pieces[..k])), pieces[k..]);
            r == match Reached(pieces, length, k)
                 case Some(n) => Returned(Response(Some(status), fields, Flatten(pieces[..n])))
                 case None => InBody(status, fields, Some(length), Flatten(pieces))
    decreases |pieces| - k
  {
    var body := Flatten(pieces[..k]);
    if |body| >= length {
      ReceiveAllStops(Returned(Response(Some(status), fields, body)), pieces[k..]);
    } else if k == |pieces| {
      assert pieces[..k] == pieces;
    } else {
      assert pieces[k..][1..] == pieces[k + 1..];
      assert pieces[..k + 1] == pieces[..k] + [pieces[k]];
      FlattenAppend(pieces[..k], [pieces[k]]);
      assert Flatten([pieces[k]]) == pieces[k] by { assert pieces[k] + "" == pieces[k]; }
      PiecesAreCollected(status, fields, length, pieces, k + 1);
    }
  }

  lemma {:induction false} FlattenGrows(pieces: seq<string>, j: nat, k: nat)
    requires j <= k <= |pieces|
    ensures Flatten(pieces[..j]) <= Flatten(pieces[..k])
  {
    assert pieces[..k] == pieces[..j] + pieces[j..k];
    FlattenAppend(pieces[..j], pieces[j..k]);
  }

  lemma {:induction false} ReachedFirst(pieces: seq<string>, length: nat, k: nat)
    requires k <= |pieces|
    ensures Reached(pieces, length, k).Some? ==>
              var n := Reached(pieces, length, k).value;
              k <= n <= |pieces| && |Flatten(pieces[..n])| >= length
              && forall j :: k <= j < n ==> |Flatten(pieces[..j])| < length
    ensures Reached(pieces, length, k).None? ==> forall j :: k <= j <= |pieces| ==> |Flatten(pieces[..j])| < length
    decreases |pieces| - k
  {
    if |Flatten(pieces[..k])| < length && k < |pieces| { ReachedFirst(pieces, length, k + 1); }
  }

  /** A first slice whose header block announces a body of `length` octets and no chunks. */
  ghost predicate AnnouncesLength(first: string, h: Head, rest: string, length: nat) {
    Find(first, HEADER_END).Some? &&
    var i := Find(first, HEADER_END).value;
    && ParseHead(first[..i + 2]) == Some(h)
    && rest == first[i + 4..]
    && h.framing == Framing(false, Some(length))
  }

  /** Under Content-Length the code returns exactly the announced octets if, and only if, a read
      ends where the body ends: it does not truncate what a read delivers beyond it. */
  lemma ContentLengthExactly(cut: seq<string>, h: Head, rest: string, length: nat)
    requires cut != [] && AnnouncesLength(cut[0], h, rest, length)
    ensures var pieces := [rest] + cut[1..];
            && (ReceiveAll(Fresh, cut).Returned? && |ReceiveAll(Fresh, cut).response.body| == length
                <==> exists k :: 1 <= k <= |pieces| && |Flatten(pieces[..k])| == length)
            && (ReceiveAll(Fresh, cut).Returned? ==>
                  ReceiveAll(Fresh, cut).response.body <= Flatten(pieces))
  {
    var pieces := [rest] + cut[1..];
    assert Flatten(pieces[..1]) == rest by { assert pieces[..1] == [rest]; assert rest + "" == rest; }
    assert pieces[1..] == cut[1..];
    PiecesAreCollected(h.status, h.fields, length, pieces, 1);
    ReachedFirst(pieces, length, 1);
    var n := Reached(pieces, length, 1);
    if n.Some? {
      assert pieces[..|pieces|] == pieces;
      FlattenGrows(pieces, n.value, |pieces|);
      forall k | 1 <= k <= |pieces| && |Flatten(pieces[..k])| == length
        ensures |Flatten(pieces[..n.value])| == length
      {
        FlattenGrows(pieces, n.value, k);
      }
    }
  }
}
