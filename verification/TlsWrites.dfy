/** Writing through OpenSSL without blocking: what is not taken is kept. */
module TlsWrites {
  import opened Sequences
  import opened Numbers

  /** What one call of `SSL_write` does: it takes at least one octet and at most what it was offered,
      asks to be called again, or fails. Each may leave ciphertext in the write BIO. */
  datatype Answer<T> =
    | Accepts(more: nat, output: seq<T>)
    | Want(output: seq<T>)
    | Fatal(output: seq<T>)

  /** The answers of the successive calls. */
  type Ssl<!T> = nat -> Answer<T>

  /** A connection: the octets OpenSSL has taken so far, the buffers still owed, the two flags, how
      often `SSL_write` was called, and the ciphertext in the write BIO and on the socket. */
  datatype Conn<T> = Conn(
    accepted: seq<T>, pending: seq<seq<T>>, closing: bool, scheduled: bool, calls: nat, bio: seq<T>, sent: seq<T>)

  function Open<T>(): Conn<T> { Conn([], [], false, false, 0, [], []) }

  // ---- What the operations do

  /** `flushSslBuffer`: everything in the write BIO goes to the socket. */
  function Pump<T>(c: Conn<T>): Conn<T> {
    if c.closing then c else c.(sent := c.sent + c.bio, bio := [])
  }

  function Called<T>(ssl: Ssl<T>, c: Conn<T>): Conn<T> {
    c.(calls := c.calls + 1, bio := c.bio + ssl(c.calls).output)
  }

  /** How many octets a call takes when `left` are left: zero if it takes none. */
  function Taken<T>(answer: Answer<T>, left: nat): (rc: nat)
    ensures rc <= left
  {
    var asked := IntCast(left);
    if answer.Accepts? && asked > 0 then (if answer.more < asked then answer.more + 1 else asked) else 0
  }

  /** Any part of what fits an `int` can be taken; nothing is, when the call asks again or fails, or when the
      length that is left is no positive `int`. */
  lemma TakenExactly<T>(answer: Answer<T>, left: nat, k: nat)
    ensures 0 < k <= IntCast(left) && answer.Accepts? && answer.more == k - 1 ==> Taken(answer, left) == k
    ensures answer.Want? || answer.Fatal? || IntCast(left) <= 0 ==> Taken(answer, left) == 0
  {
  }

  /** After a call that took `part`, with the ciphertext passed on. */
  function Took<T>(ssl: Ssl<T>, c: Conn<T>, part: seq<T>): Conn<T> {
    Pump(Called(ssl, c).(accepted := c.accepted + part))
  }

  /** The loop of `asyncWrite` from an offset. */
  function WriteFrom<T>(ssl: Ssl<T>, c: Conn<T>, data: seq<T>, offset: nat): Conn<T>
    requires offset <= |data|
    decreases |data| - offset
  {
    if offset == |data| then Pump(c)
    else
      var rc := Taken(ssl(c.calls), |data| - offset);
      if rc > 0 then
        WriteFrom(ssl, Took(ssl, c, data[offset..offset + rc]), data, offset + rc)
      else if ssl(c.calls).Want? then
        Called(ssl, c).(pending := c.pending + [data[offset..]], scheduled := true)
      else Called(ssl, c).(closing := true)
  }

  function AsyncWrite<T>(ssl: Ssl<T>, c: Conn<T>, data: seq<T>): Conn<T> {
    if c.closing || data == [] then c else WriteFrom(ssl, c, data, 0)
  }

  /** Writing the set-aside buffers again, until the connection is closed. */
  function Replay<T>(ssl: Ssl<T>, c: Conn<T>, queued: seq<seq<T>>): Conn<T>
    decreases |queued|
  {
    if queued == [] then c
    else
      var r := AsyncWrite(ssl, c, queued[0]);
      if r.closing then r else Replay(ssl, r, queued[1..])
  }

  function Flush<T>(ssl: Ssl<T>, c: Conn<T>): Conn<T> {
    var p := Pump(c);
    Replay(ssl, p.(pending := []), p.pending)
  }

  predicate NeedsFlush<T>(c: Conn<T>) {
    |c.bio| > 0 || |c.pending| > 0 || c.scheduled
  }

  function MaybeFlush<T>(ssl: Ssl<T>, c: Conn<T>): Conn<T> {
    if NeedsFlush(c) then Flush(ssl, c.(scheduled := false)) else c
  }

  // ---- One buffer: cut in two, nothing lost

  /** How much of the buffer was taken. */
  function Cut<T>(ssl: Ssl<T>, c: Conn<T>, data: seq<T>): int {
    |AsyncWrite(ssl, c, data).accepted| - |c.accepted|
  }

  function Rest<T>(data: seq<T>, k: nat): seq<seq<T>>
    requires k <= |data|
  {
    if k < |data| then [data[k..]] else []
  }

  lemma Slices<T>(a: seq<T>, data: seq<T>, i: nat, j: nat, k: nat)
    requires i <= j <= k <= |data|
    ensures a + data[i..j] + data[j..k] == a + data[i..k]
  {
  }

  /** From `c` with an offset to `r`: a part of the buffer was taken, and the rest is the last pending
      buffer and a retry is scheduled, unless the call failed and closed the connection. */
  ghost predicate IsCut<T>(c: Conn<T>, r: Conn<T>, data: seq<T>, offset: nat) {
    var k := offset + |r.accepted| - |c.accepted|;
    && offset <= k <= |data|
    && r.accepted == c.accepted + data[offset..k]
    && r.pending == (if r.closing then c.pending else c.pending + Rest(data, k))
    && (r.closing ==> k < |data|)
    && r.scheduled == (c.scheduled || (!r.closing && k < |data|))
  }

  lemma CutsCompose<T>(c: Conn<T>, next: Conn<T>, r: Conn<T>, data: seq<T>, offset: nat, mid: nat)
    requires offset <= mid <= |data| && IsCut(next, r, data, mid)
    requires next.accepted == c.accepted + data[offset..mid]
    requires next.pending == c.pending && next.scheduled == c.scheduled
    ensures IsCut(c, r, data, offset)
  {
    Slices(c.accepted, data, offset, mid, mid + |r.accepted| - |next.accepted|);
  }

  lemma {:induction false} WriteFromCuts<T>(ssl: Ssl<T>, c: Conn<T>, data: seq<T>, offset: nat)
    requires offset <= |data| && !c.closing
    ensures IsCut(c, WriteFrom(ssl, c, data, offset), data, offset)
    decreases |data| - offset
  {
    var rc := if offset < |data| then Taken(ssl(c.calls), |data| - offset) else 0;
    if rc > 0 {
      var next := Took(ssl, c, data[offset..offset + rc]);
      WriteFromCuts(ssl, next, data, offset + rc);
      CutsCompose(c, next, WriteFrom(ssl, next, data, offset + rc), data, offset, offset + rc);
    } else {
      LastCallCuts(ssl, c, data, offset);
    }
  }

  lemma LastCallCuts<T>(ssl: Ssl<T>, c: Conn<T>, data: seq<T>, offset: nat)
    requires offset <= |data| && !c.closing
    requires offset < |data| ==> Taken(ssl(c.calls), |data| - offset) == 0
    ensures IsCut(c, WriteFrom(ssl, c, data, offset), data, offset)
  {
    assert c.accepted + data[offset..offset] == c.accepted;
  }

  lemma WriteCuts<T>(ssl: Ssl<T>, c: Conn<T>, data: seq<T>)
    requires !c.closing
    ensures var r := AsyncWrite(ssl, c, data);
            var k := Cut(ssl, c, data);
            && 0 <= k <= |data|
            && r.accepted == c.accepted + data[..k]
            && r.pending == (if r.closing then c.pending else c.pending + Rest(data, k))
            && (r.closing ==> k < |data|)
            && r.scheduled == (c.scheduled || (!r.closing && k < |data|))
  {
    if data != [] {
      WriteFromCuts(ssl, c, data, 0);
      var k := Cut(ssl, c, data);
      assert data[0..k] == data[..k];
    }
  }

  // ---- A round of buffers

  function Flat<T>(parts: seq<seq<T>>): seq<T> {
    if parts == [] then [] else parts[0] + Flat(parts[1..])
  }

  /** How much of each buffer the round took. */
  function Cuts<T>(ssl: Ssl<T>, c: Conn<T>, queued: seq<seq<T>>): seq<int>
    decreases |queued|
  {
    if queued == [] then []
    else [Cut(ssl, c, queued[0])] + Cuts(ssl, AsyncWrite(ssl, c, queued[0]), queued[1..])
  }

  predicate Fits<T>(queued: seq<seq<T>>, cuts: seq<int>) {
    |cuts| == |queued| &&
    (queued == [] || (0 <= cuts[0] <= |queued[0]| && Fits(queued[1..], cuts[1..])))
  }

  /** What was taken, buffer by buffer in order. */
  function Heads<T>(queued: seq<seq<T>>, cuts: seq<int>): seq<T>
    requires Fits(queued, cuts)
  {
    if queued == [] then [] else queued[0][..cuts[0]] + Heads(queued[1..], cuts[1..])
  }

  /** What is left, buffer by buffer in order; nothing is left of a buffer that was taken whole. */
  function Tails<T>(queued: seq<seq<T>>, cuts: seq<int>): seq<seq<T>>
    requires Fits(queued, cuts)
  {
    if queued == [] then [] else Rest(queued[0], cuts[0]) + Tails(queued[1..], cuts[1..])
  }

  /** A round that does not close the connection: each buffer is cut in two, the fronts are appended
      to what was taken and the rests stay pending, all in the order of the buffers. */
  lemma {:induction false} ReplayCuts<T>(ssl: Ssl<T>, c: Conn<T>, queued: seq<seq<T>>)
    requires !c.closing && !Replay(ssl, c, queued).closing
    ensures Fits(queued, Cuts(ssl, c, queued))
    ensures var r := Replay(ssl, c, queued);
            var cuts := Cuts(ssl, c, queued);
            && r.accepted == c.accepted + Heads(queued, cuts)
            && r.pending == c.pending + Tails(queued, cuts)
    decreases |queued|
  {
    if queued != [] {
      WriteCuts(ssl, c, queued[0]);
      var next := AsyncWrite(ssl, c, queued[0]);
      ReplayCuts(ssl, next, queued[1..]);
      var k, rest := Cut(ssl, c, queued[0]), Cuts(ssl, next, queued[1..]);
      assert Cuts(ssl, c, queued)[1..] == rest;
      Assoc(c.accepted, queued[0][..k], Heads(queued[1..], rest));
      Assoc(c.pending, Rest(queued[0], k), Tails(queued[1..], rest));
    }
  }

  lemma {:induction false} FlatJoined<T>(a: seq<seq<T>>, b: seq<seq<T>>)
    ensures Flat(a + b) == Flat(a) + Flat(b)
  {
    if a == [] {
      assert a + b == b;
    } else {
      assert (a + b)[1..] == a[1..] + b;
      FlatJoined(a[1..], b);
      Assoc(a[0], Flat(a[1..]), Flat(b));
    }
  }

  lemma RestFlat<T>(data: seq<T>, k: nat)
    requires k <= |data|
    ensures data[..k] + Flat(Rest(data, k)) == data
  {
    if k < |data| {
      assert Rest(data, k)[1..] == [];
      assert Flat(Rest(data, k)) == data[k..] + [];
      assert data[..k] + data[k..] == data;
    }
  }

  /** The octets of the fronts and of the rests are the octets of the buffers. */
  lemma {:induction false} CutsConserve<T>(queued: seq<seq<T>>, cuts: seq<int>)
    requires Fits(queued, cuts)
    ensures multiset(Heads(queued, cuts)) + multiset(Flat(Tails(queued, cuts))) == multiset(Flat(queued))
  {
    if queued != [] {
      CutsConserve(queued[1..], cuts[1..]);
      RestFlat(queued[0], cuts[0]);
      FlatJoined(Rest(queued[0], cuts[0]), Tails(queued[1..], cuts[1..]));
    }
  }

  // ---- Every run of writes and flushes

  datatype Event<T> = Write(data: seq<T>) | Tick | Shut

  function Step<T>(ssl: Ssl<T>, c: Conn<T>, e: Event<T>): Conn<T> {
    match e
    case Write(data) => AsyncWrite(ssl, c, data)
    case Tick => MaybeFlush(ssl, c)
    case Shut => c.(closing := true)
  }

  function Run<T>(ssl: Ssl<T>, events: seq<Event<T>>): Conn<T> {
    if events == [] then Open()
    else Step(ssl, Run(ssl, events[..|events| - 1]), events[|events| - 1])
  }

  function Offered<T>(e: Event<T>): seq<T> {
    if e.Write? then e.data else []
  }

  /** Everything the application has written. */
  function Submitted<T>(events: seq<Event<T>>): seq<T> {
    if events == [] then [] else Submitted(events[..|events| - 1]) + Offered(events[|events| - 1])
  }

  /** The round that a tick starts. */
  function Round<T>(ssl: Ssl<T>, c: Conn<T>): seq<int> {
    Cuts(ssl, Pump(c.(scheduled := false)).(pending := []), c.pending)
  }

  lemma TickCuts<T>(ssl: Ssl<T>, c: Conn<T>)
    requires !MaybeFlush(ssl, c).closing && NeedsFlush(c)
    ensures !c.closing && Fits(c.pending, Round(ssl, c))
    ensures var r := MaybeFlush(ssl, c);
            && r.accepted == c.accepted + Heads(c.pending, Round(ssl, c))
            && r.pending == Tails(c.pending, Round(ssl, c))
  {
    ReplayCuts(ssl, Pump(c.(scheduled := false)).(pending := []), c.pending);
  }

  lemma StepConserves<T>(ssl: Ssl<T>, c: Conn<T>, e: Event<T>)
    requires !Step(ssl, c, e).closing
    ensures !c.closing
    ensures var r := Step(ssl, c, e);
            multiset(r.accepted) + multiset(Flat(r.pending))
            == multiset(c.accepted) + multiset(Flat(c.pending)) + multiset(Offered(e))
  {
    if e.Write? {
      WriteCuts(ssl, c, e.data);
      var k := Cut(ssl, c, e.data);
      FlatJoined(c.pending, Rest(e.data, k));
      RestFlat(e.data, k);
    } else if NeedsFlush(c) {
      TickCuts(ssl, c);
      CutsConserve(c.pending, Round(ssl, c));
    }
  }

  /** Whatever `SSL_write` does, short of an error: octets taken and octets owed are together the
      octets submitted, each as often. */
  lemma {:induction false} NothingIsLost<T>(ssl: Ssl<T>, events: seq<Event<T>>)
    requires !Run(ssl, events).closing
    ensures var r := Run(ssl, events);
            && multiset(r.accepted) + multiset(Flat(r.pending)) == multiset(Submitted(events))
            && |r.accepted| + |Flat(r.pending)| == |Submitted(events)|
  {
    if events != [] {
      var earlier, e := events[..|events| - 1], events[|events| - 1];
      StepConserves(ssl, Run(ssl, earlier), e);
      NothingIsLost(ssl, earlier);
    }
    var r := Run(ssl, events);
    SameSize(r.accepted, Flat(r.pending), Submitted(events));
  }

  lemma SameSize<T>(a: seq<T>, b: seq<T>, c: seq<T>)
    requires multiset(a) + multiset(b) == multiset(c)
    ensures |a| + |b| == |c|
  {
    assert |multiset(a) + multiset(b)| == |a| + |b|;
  }

  lemma RunSnoc<T>(ssl: Ssl<T>, events: seq<Event<T>>, e: Event<T>)
    ensures Run(ssl, events + [e]) == Step(ssl, Run(ssl, events), e)
  {
    assert (events + [e])[..|events|] == events;
  }

  // ---- The ciphertext

  /** What the first `n` calls produced. */
  function Produced<T>(ssl: Ssl<T>, n: nat): seq<T> {
    if n == 0 then [] else Produced(ssl, n - 1) + ssl(n - 1).output
  }

  /** The socket has been given what the calls produced, in order, except for what is in the BIO. */
  predicate Relayed<T(==)>(ssl: Ssl<T>, c: Conn<T>) {
    c.sent + c.bio == Produced(ssl, c.calls)
  }

  lemma PumpRelays<T>(ssl: Ssl<T>, c: Conn<T>)
    requires Relayed(ssl, c)
    ensures Relayed(ssl, Pump(c))
  {
  }

  lemma CalledRelays<T>(ssl: Ssl<T>, c: Conn<T>)
    requires Relayed(ssl, c)
    ensures Relayed(ssl, Called(ssl, c))
  {
    Assoc(c.sent, c.bio, ssl(c.calls).output);
  }

  lemma {:induction false} WriteFromRelays<T>(ssl: Ssl<T>, c: Conn<T>, data: seq<T>, offset: nat)
    requires offset <= |data| && Relayed(ssl, c)
    ensures Relayed(ssl, WriteFrom(ssl, c, data, offset))
    decreases |data| - offset
  {
    PumpRelays(ssl, c);
    CalledRelays(ssl, c);
    if offset < |data| {
      var rc := Taken(ssl(c.calls), |data| - offset);
      if rc > 0 {
        var part := data[offset..offset + rc];
        PumpRelays(ssl, Called(ssl, c).(accepted := c.accepted + part));
        WriteFromRelays(ssl, Took(ssl, c, part), data, offset + rc);
      }
    }
  }

  lemma {:induction false} ReplayRelays<T>(ssl: Ssl<T>, c: Conn<T>, queued: seq<seq<T>>)
    requires Relayed(ssl, c)
    ensures Relayed(ssl, Replay(ssl, c, queued))
    decreases |queued|
  {
    if queued != [] {
      WriteFromRelays(ssl, c, queued[0], 0);
      var next := AsyncWrite(ssl, c, queued[0]);
      ReplayRelays(ssl, next, queued[1..]);
    }
  }

  lemma {:induction false} RunRelays<T>(ssl: Ssl<T>, events: seq<Event<T>>)
    ensures Relayed(ssl, Run(ssl, events))
  {
    if events != [] {
      var c, e := Run(ssl, events[..|events| - 1]), events[|events| - 1];
      RunRelays(ssl, events[..|events| - 1]);
      if e.Write? {
        WriteFromRelays(ssl, c, e.data, 0);
      } else if e.Tick? {
        var p := Pump(c.(scheduled := false));
        PumpRelays(ssl, c.(scheduled := false));
        ReplayRelays(ssl, p.(pending := []), p.pending);
      }
    }
  }

  // ---- The class

  class TlsConnection<T> {
    const ssl: Ssl<T>
    var accepted: seq<T>
    var pendingWrites: seq<seq<T>>
    var closing: bool
    var scheduleFlush: bool
    var calls: nat
    var writeBio: seq<T>
    var sent: seq<T>

    ghost function Value(): Conn<T>
      reads this
    {
      Conn(accepted, pendingWrites, closing, scheduleFlush, calls, writeBio, sent)
    }

    constructor (ssl: Ssl<T>)
      ensures Value() == Open() && this.ssl == ssl
    {
      this.ssl := ssl;
      accepted, pendingWrites, closing, scheduleFlush, calls, writeBio, sent := [], [], false, false, 0, [], [];
    }

    /** One call of `SSL_write`: what it took, or nothing and the answer. */
    method SslWrite(data: seq<T>, offset: nat) returns (rc: nat, answer: Answer<T>)
      requires offset <= |data|
      modifies this
      ensures answer == ssl(old(calls)) && rc == Taken(answer, |data| - offset)
      ensures Value() == Called(ssl, old(Value())).(accepted := old(accepted) + data[offset..offset + rc])
    {
      answer := ssl(calls);
      rc := Taken(answer, |data| - offset);
      accepted := accepted + data[offset..offset + rc];
      writeBio := writeBio + answer.output;
      calls := calls + 1;
    }

    /** In pieces of at most 1 MiB. */
    method FlushSslBuffer()
      modifies this
      ensures Value() == Pump(old(Value()))
    {
      if closing { return; }
      while |writeBio| > 0
        invariant sent + writeBio == old(sent + writeBio)
        invariant Value() == old(Value()).(sent := sent, bio := writeBio)
        decreases |writeBio|
      {
        var toRead := if |writeBio| < 1024 * 1024 then |writeBio| else 1024 * 1024;
        Slide(sent, writeBio, toRead);
        sent := sent + writeBio[..toRead];
        writeBio := writeBio[toRead..];
      }
      assert sent + [] == sent;
    }

    method AsyncWriteData(data: seq<T>)
      modifies this
      ensures Value() == AsyncWrite(ssl, old(Value()), data)
    {
      if closing || |data| == 0 { return; }
      var offset := 0;
      while offset < |data|
        invariant offset <= |data| && !closing
        invariant WriteFrom(ssl, Value(), data, offset) == AsyncWrite(ssl, old(Value()), data)
        decreases |data| - offset
      {
        assert data[offset..offset] == [];
        var rc, answer := SslWrite(data, offset);
        if rc > 0 {
          offset := offset + rc;
          FlushSslBuffer();
        } else if answer.Want? {
          pendingWrites := pendingWrites + [data[offset..]];
          scheduleFlush := true;
          return;
        } else {
          closing := true;
          return;
        }
      }
      FlushSslBuffer();
    }

    method FlushPending()
      modifies this
      ensures Value() == Flush(ssl, old(Value()))
    {
      FlushSslBuffer();
      if pendingWrites != [] {
        var queued := pendingWrites;
        pendingWrites := [];
        var i := 0;
        while i < |queued|
          invariant i <= |queued|
          invariant Replay(ssl, Value(), queued[i..]) == Flush(ssl, old(Value()))
        {
          AsyncWriteData(queued[i]);
          assert queued[i..][1..] == queued[i + 1..];
          if closing { return; }
          i := i + 1;
        }
      }
    }

    method MaybeFlushNow()
      modifies this
      ensures Value() == MaybeFlush(ssl, old(Value()))
    {
      if |writeBio| > 0 || |pendingWrites| > 0 || scheduleFlush {
        scheduleFlush := false;
        FlushPending();
      }
    }
  }

  lemma Slide<T>(sent: seq<T>, bio: seq<T>, n: nat)
    requires n <= |bio|
    ensures (sent + bio[..n]) + bio[n..] == sent + bio
  {
  }
}
