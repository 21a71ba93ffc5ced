/** When deferred writes reach OpenSSL in the order they were made. */
module TlsOrder {
  import opened Sequences
  import opened Numbers
  import opened TlsWrites

  // ---- When the order is kept

  predicate Nothing(cuts: seq<int>) {
    forall i :: 0 <= i < |cuts| ==> cuts[i] == 0
  }

  /** After the first buffer that is not taken whole, nothing more is taken. */
  predicate Persists<T>(queued: seq<seq<T>>, cuts: seq<int>)
    requires Fits(queued, cuts)
  {
    queued == [] || if cuts[0] == |queued[0]| then Persists(queued[1..], cuts[1..]) else Nothing(cuts[1..])
  }

  lemma {:induction false} NothingTaken<T>(queued: seq<seq<T>>, cuts: seq<int>)
    requires Fits(queued, cuts)
    ensures Nothing(cuts) <==> Heads(queued, cuts) == []
    ensures Nothing(cuts) ==> Flat(Tails(queued, cuts)) == Flat(queued)
  {
    if queued != [] {
      NothingTaken(queued[1..], cuts[1..]);
      assert Nothing(cuts) <==> cuts[0] == 0 && Nothing(cuts[1..]) by {
        assert cuts == [cuts[0]] + cuts[1..];
      }
      RestFlat(queued[0], cuts[0]);
      FlatJoined(Rest(queued[0], cuts[0]), Tails(queued[1..], cuts[1..]));
    }
  }

  lemma {:induction false} PersistingKeepsOrder<T>(queued: seq<seq<T>>, cuts: seq<int>)
    requires Fits(queued, cuts) && Persists(queued, cuts)
    ensures Heads(queued, cuts) + Flat(Tails(queued, cuts)) == Flat(queued)
  {
    if queued != [] {
      var front, rest := queued[0][..cuts[0]], Rest(queued[0], cuts[0]);
      var heads, tails := Heads(queued[1..], cuts[1..]), Tails(queued[1..], cuts[1..]);
      RestFlat(queued[0], cuts[0]);
      FlatJoined(rest, tails);
      if cuts[0] == |queued[0]| {
        PersistingKeepsOrder(queued[1..], cuts[1..]);
        Assoc(front, heads, Flat(tails));
      } else {
        NothingTaken(queued[1..], cuts[1..]);
        Assoc(front, Flat(rest), Flat(tails));
      }
    }
  }

  ghost predicate Distinct<T>(s: seq<T>) {
    forall i, j :: 0 <= i < j < |s| ==> s[i] != s[j]
  }

  lemma {:induction false} HeadsAreQueued<T>(queued: seq<seq<T>>, cuts: seq<int>)
    requires Fits(queued, cuts)
    ensures Heads(queued, cuts) != [] ==> Heads(queued, cuts)[0] in Flat(queued)
  {
    if queued != [] { HeadsAreQueued(queued[1..], cuts[1..]); }
  }

  lemma NotNext<T>(a: seq<T>, k: nat, b: seq<T>, later: seq<T>)
    requires k < |a| && Distinct(a + later) && b != [] && b[0] in later
    ensures !(a[..k] + b <= a + later)
  {
    assert (a + later)[k] == a[k] && (a[..k] + b)[k] == b[0];
    var i :| 0 <= i < |later| && later[i] == b[0];
    assert (a + later)[|a| + i] == b[0];
  }

  lemma DistinctTail<T>(a: seq<T>, b: seq<T>)
    requires Distinct(a + b)
    ensures Distinct(b)
  {
    forall i, j | 0 <= i < j < |b| ensures b[i] != b[j] {
      assert b[i] == (a + b)[|a| + i] && b[j] == (a + b)[|a| + j];
    }
  }

  lemma PrefixBehind<T>(a: seq<T>, b: seq<T>, c: seq<T>)
    ensures a + b <= a + c <==> b <= c
  {
    if a + b <= a + c {
      assert (a + b)[|a|..] == b && (a + c)[|a|..] == c;
      assert forall i :: 0 <= i < |b| ==> b[i] == (a + b)[|a| + i] == (a + c)[|a| + i] == c[i];
    }
  }

  /** With octets that can be told apart, what is taken is a prefix of what is queued exactly when the
      round persists. */
  lemma {:induction false} OrderOfRound<T>(queued: seq<seq<T>>, cuts: seq<int>)
    requires Fits(queued, cuts) && Distinct(Flat(queued))
    ensures Heads(queued, cuts) <= Flat(queued) <==> Persists(queued, cuts)
  {
    if queued != [] {
      var heads := Heads(queued[1..], cuts[1..]);
      if cuts[0] == |queued[0]| {
        DistinctTail(queued[0], Flat(queued[1..]));
        OrderOfRound(queued[1..], cuts[1..]);
        assert queued[0][..cuts[0]] == queued[0];
        PrefixBehind(queued[0], heads, Flat(queued[1..]));
      } else {
        NothingTaken(queued[1..], cuts[1..]);
        HeadsAreQueued(queued[1..], cuts[1..]);
        if heads != [] { NotNext(queued[0], cuts[0], heads, Flat(queued[1..])); }
      }
    }
  }

  /** If `SSL_write` goes on asking to be called again for the rest of the round once it has asked, the
      round persists. */
  lemma {:induction false} WantingPersists<T>(ssl: Ssl<T>, c: Conn<T>, queued: seq<seq<T>>)
    requires !c.closing && !Replay(ssl, c, queued).closing
    requires forall i: nat, j: nat :: c.calls <= i < j < Replay(ssl, c, queued).calls && ssl(i).Want? ==> ssl(j).Want?
    ensures Fits(queued, Cuts(ssl, c, queued)) && Persists(queued, Cuts(ssl, c, queued))
    decreases |queued|
  {
    ReplayCuts(ssl, c, queued);
    if queued != [] {
      var next, cuts := AsyncWrite(ssl, c, queued[0]), Cuts(ssl, c, queued);
      WriteCalls(ssl, c, queued[0]);
      assert cuts[1..] == Cuts(ssl, next, queued[1..]);
      if cuts[0] == |queued[0]| {
        WantingPersists(ssl, next, queued[1..]);
      } else {
        WantedTakesNothing(ssl, next, queued[1..]);
      }
    }
  }

  /** A buffer left over on an open connection means that the last call asked to be called again; a closed
      one, that it did not. */
  lemma {:induction false} WriteCalls<T>(ssl: Ssl<T>, c: Conn<T>, data: seq<T>)
    requires !c.closing
    ensures var r := AsyncWrite(ssl, c, data);
            && c.calls <= r.calls
            && (r.closing ==> c.calls < r.calls && !ssl(r.calls - 1).Want?)
            && (!r.closing && Cut(ssl, c, data) < |data| ==> c.calls < r.calls && ssl(r.calls - 1).Want?)
  {
    if data != [] { WriteFromCalls(ssl, c, data, 0); }
  }

  lemma {:induction false} WriteFromCalls<T>(ssl: Ssl<T>, c: Conn<T>, data: seq<T>, offset: nat)
    requires offset <= |data| && !c.closing
    ensures var r := WriteFrom(ssl, c, data, offset);
            && c.calls <= r.calls
            && (r.closing ==> c.calls < r.calls && !ssl(r.calls - 1).Want?)
            && (!r.closing && offset + |r.accepted| - |c.accepted| < |data| ==>
                  c.calls < r.calls && ssl(r.calls - 1).Want?)
    decreases |data| - offset
  {
    if offset < |data| {
      var rc := Taken(ssl(c.calls), |data| - offset);
      if rc > 0 {
        WriteFromCalls(ssl, Took(ssl, c, data[offset..offset + rc]), data, offset + rc);
      }
    }
  }

  lemma {:induction false} ReplayCalls<T>(ssl: Ssl<T>, c: Conn<T>, queued: seq<seq<T>>)
    ensures c.calls <= Replay(ssl, c, queued).calls
    decreases |queued|
  {
    if queued != [] {
      var next := AsyncWrite(ssl, c, queued[0]);
      if !c.closing { WriteCalls(ssl, c, queued[0]); }
      ReplayCalls(ssl, next, queued[1..]);
    }
  }

  lemma {:induction false} WantedTakesNothing<T>(ssl: Ssl<T>, c: Conn<T>, queued: seq<seq<T>>)
    requires !c.closing && !Replay(ssl, c, queued).closing
    requires forall j: nat :: c.calls <= j < Replay(ssl, c, queued).calls ==> ssl(j).Want?
    ensures Nothing(Cuts(ssl, c, queued))
    decreases |queued|
  {
    if queued != [] {
      var next := AsyncWrite(ssl, c, queued[0]);
      ReplayCalls(ssl, next, queued[1..]);
      WantedWrite(ssl, c, queued[0]);
      WantedTakesNothing(ssl, next, queued[1..]);
    }
  }

  lemma WantedWrite<T>(ssl: Ssl<T>, c: Conn<T>, data: seq<T>)
    requires !c.closing && (c.calls < AsyncWrite(ssl, c, data).calls ==> ssl(c.calls).Want?)
    ensures Cut(ssl, c, data) == 0 && c.calls <= AsyncWrite(ssl, c, data).calls
  {
    WriteCalls(ssl, c, data);
    if data != [] { FirstCall(ssl, c, data, 0); }
  }

  /** Something to write means at least one call. */
  lemma FirstCall<T>(ssl: Ssl<T>, c: Conn<T>, data: seq<T>, offset: nat)
    requires offset < |data| && !c.closing
    ensures c.calls < WriteFrom(ssl, c, data, offset).calls
  {
    var rc := Taken(ssl(c.calls), |data| - offset);
    if rc > 0 { WriteFromCalls(ssl, Took(ssl, c, data[offset..offset + rc]), data, offset + rc); }
  }

  /** One flush, whatever happens in later ones: as long as an `SSL_write` that has asked to be called
      again asks for the rest of the round, octets taken and octets owed stay the same stream. */
  lemma WantingKeepsOrder<T>(ssl: Ssl<T>, c: Conn<T>)
    requires !MaybeFlush(ssl, c).closing
    requires forall i: nat, j: nat :: c.calls <= i < j < MaybeFlush(ssl, c).calls && ssl(i).Want? ==> ssl(j).Want?
    ensures var r := MaybeFlush(ssl, c); r.accepted + Flat(r.pending) == c.accepted + Flat(c.pending)
  {
    if NeedsFlush(c) {
      TickCuts(ssl, c);
      WantingPersists(ssl, Pump(c.(scheduled := false)).(pending := []), c.pending);
      TickOrder(ssl, c);
    }
  }

  // ---- Every run

  /** A step that does not let octets overtake others: a write takes nothing while something is owed,
      and a round persists. */
  predicate Orderly<T(==)>(ssl: Ssl<T>, c: Conn<T>, e: Event<T>) {
    match e
    case Write(data) => Flat(c.pending) == [] || Cut(ssl, c, data) == 0
    case Tick => NeedsFlush(c) ==> Fits(c.pending, Round(ssl, c)) && Persists(c.pending, Round(ssl, c))
    case Shut => true
  }

  predicate OrderlyRun<T(==)>(ssl: Ssl<T>, events: seq<Event<T>>) {
    events == [] ||
    var earlier := events[..|events| - 1];
    OrderlyRun(ssl, earlier) && Orderly(ssl, Run(ssl, earlier), events[|events| - 1])
  }

  lemma WriteOrder<T>(ssl: Ssl<T>, c: Conn<T>, data: seq<T>)
    requires !AsyncWrite(ssl, c, data).closing
    ensures var r, s := AsyncWrite(ssl, c, data), c.accepted + Flat(c.pending) + data;
            && (Orderly(ssl, c, Write(data)) ==> r.accepted + Flat(r.pending) == s)
            && (Distinct(s) && !Orderly(ssl, c, Write(data)) ==> !(r.accepted <= s))
  {
    WriteCuts(ssl, c, data);
    var k := Cut(ssl, c, data);
    FlatJoined(c.pending, Rest(data, k));
    RestFlat(data, k);
    WriteOrderOf(c.accepted, Flat(c.pending), data, k, Flat(Rest(data, k)));
  }

  lemma WriteOrderOf<T>(accepted: seq<T>, owed: seq<T>, data: seq<T>, k: nat, rest: seq<T>)
    requires k <= |data| && data[..k] + rest == data
    ensures owed == [] || k == 0 ==> (accepted + data[..k]) + (owed + rest) == accepted + owed + data
    ensures Distinct(accepted + owed + data) && owed != [] && k > 0 ==>
              !(accepted + data[..k] <= accepted + owed + data)
  {
    if owed == [] || k == 0 {
      Assoc(accepted, data[..k], owed + rest);
    } else if Distinct(accepted + owed + data) {
      Assoc(accepted, owed, data);
      DistinctTail(accepted, owed + data);
      NotNext(owed, 0, data[..k], data);
      PrefixBehind(accepted, data[..k], owed + data);
    }
  }

  lemma TickOrder<T>(ssl: Ssl<T>, c: Conn<T>)
    requires !MaybeFlush(ssl, c).closing
    ensures var r, s := MaybeFlush(ssl, c), c.accepted + Flat(c.pending);
            && (Orderly(ssl, c, Tick) ==> r.accepted + Flat(r.pending) == s)
            && (Distinct(s) && !Orderly(ssl, c, Tick) ==> !(r.accepted <= s))
  {
    if NeedsFlush(c) {
      TickCuts(ssl, c);
      var cuts := Round(ssl, c);
      if Persists(c.pending, cuts) {
        PersistingKeepsOrder(c.pending, cuts);
        Assoc(c.accepted, Heads(c.pending, cuts), Flat(Tails(c.pending, cuts)));
      } else if Distinct(c.accepted + Flat(c.pending)) {
        DistinctTail(c.accepted, Flat(c.pending));
        OrderOfRound(c.pending, cuts);
        PrefixBehind(c.accepted, Heads(c.pending, cuts), Flat(c.pending));
      }
    }
  }

  lemma StepOrder<T>(ssl: Ssl<T>, c: Conn<T>, e: Event<T>, s: seq<T>)
    requires !Step(ssl, c, e).closing && c.accepted + Flat(c.pending) == s
    ensures var r := Step(ssl, c, e);
            && (Orderly(ssl, c, e) ==> r.accepted + Flat(r.pending) == s + Offered(e))
            && (Distinct(s + Offered(e)) && !Orderly(ssl, c, e) ==> !(r.accepted <= s + Offered(e)))
  {
    assert s + [] == s;
    if e.Write? { WriteOrder(ssl, c, e.data); } else { TickOrder(ssl, c); }
  }

  lemma StepGrows<T>(ssl: Ssl<T>, c: Conn<T>, e: Event<T>)
    requires !Step(ssl, c, e).closing
    ensures c.accepted <= Step(ssl, c, e).accepted
  {
    if e.Write? {
      StepConserves(ssl, c, e);
      WriteCuts(ssl, c, e.data);
    } else if NeedsFlush(c) {
      TickCuts(ssl, c);
    }
  }

  lemma StaysOutOfOrder<T>(a: seq<T>, s: seq<T>, a': seq<T>, s': seq<T>)
    requires |a| <= |s| && a <= a'
    ensures a' <= s + s' ==> a <= s
  {
    if a' <= s + s' {
      assert a == a'[..|a|] == (s + s')[..|a|] == s[..|a|];
    }
  }

  /** While every step is orderly, what was taken followed by what is owed is what was submitted. With
      octets that can be told apart, what OpenSSL was given is a prefix of what was submitted exactly
      when every step was orderly: once an octet has overtaken another, no later step repairs it. */
  lemma {:induction false} InOrderExactly<T>(ssl: Ssl<T>, events: seq<Event<T>>)
    requires !Run(ssl, events).closing
    ensures var r, s := Run(ssl, events), Submitted(events);
            && (OrderlyRun(ssl, events) ==> r.accepted + Flat(r.pending) == s)
            && (Distinct(s) ==> (r.accepted <= s <==> OrderlyRun(ssl, events)))
  {
    if events != [] {
      var earlier, e := events[..|events| - 1], events[|events| - 1];
      var c, s := Run(ssl, earlier), Submitted(earlier);
      StepConserves(ssl, c, e);
      InOrderExactly(ssl, earlier);
      if OrderlyRun(ssl, earlier) {
        StepOrder(ssl, c, e, s);
      } else if Distinct(s + Offered(e)) {
        DistinctFront(s, Offered(e));
        NothingIsLost(ssl, earlier);
        StepGrows(ssl, c, e);
        StaysOutOfOrder(c.accepted, s, Step(ssl, c, e).accepted, Offered(e));
      }
    }
  }

  lemma DistinctFront<T>(a: seq<T>, b: seq<T>)
    requires Distinct(a + b)
    ensures Distinct(a)
  {
    forall i, j | 0 <= i < j < |a| ensures a[i] != a[j] {
      assert a[i] == (a + b)[i] && a[j] == (a + b)[j];
    }
  }

  /** It happens: a write that had to wait is overtaken by the next one. */
  lemma LaterWriteOvertakes<T>(ssl: Ssl<T>, a: T, b: T)
    requires ssl(0).Want? && ssl(1).Accepts?
    ensures var r := Run(ssl, [Write([a])] + [Write([b])]); r.accepted == [b] && r.pending == [[a]]
  {
    RunSnoc(ssl, [], Write([a]));
    assert [] + [Write([a])] == [Write([a])];
    RunSnoc(ssl, [Write([a])], Write([b]));
    var waiting := Run(ssl, [Write([a])]);
    WaitingFirst(ssl, a);
    TakenWhole(ssl, waiting, b);
  }

  lemma WaitingFirst<T>(ssl: Ssl<T>, a: T)
    requires ssl(0).Want?
    ensures var r := AsyncWrite(ssl, Open(), [a]); r.accepted == [] && r.pending == [[a]] && r.calls == 1 && !r.closing
  {
    assert [a][0..] == [a];
  }

  lemma TakenWhole<T>(ssl: Ssl<T>, c: Conn<T>, b: T)
    requires !c.closing && ssl(c.calls).Accepts?
    ensures var r := AsyncWrite(ssl, c, [b]); r.accepted == c.accepted + [b] && r.pending == c.pending
  {
    var data := [b];
    assert Taken(ssl(c.calls), |data| - 0) == 1;
    assert data[0..0 + 1] == [b];
    assert WriteFrom(ssl, c, data, 0) == WriteFrom(ssl, Took(ssl, c, data[0..0 + 1]), data, 0 + 1);
    assert WriteFrom(ssl, Took(ssl, c, data[0..0 + 1]), data, |data|) == Pump(Took(ssl, c, data[0..0 + 1]));
  }

  // ---- Errors, and a flush that gets through

  /** All calls of a write but the last took something. */
  lemma {:induction false} EarlierCallsTake<T>(ssl: Ssl<T>, c: Conn<T>, data: seq<T>, offset: nat, i: nat)
    requires offset <= |data| && !c.closing && c.calls <= i
    requires i + 1 < WriteFrom(ssl, c, data, offset).calls
    ensures ssl(i).Accepts?
    decreases |data| - offset
  {
    if offset < |data| {
      var rc := Taken(ssl(c.calls), |data| - offset);
      if rc > 0 && i > c.calls {
        EarlierCallsTake(ssl, Took(ssl, c, data[offset..offset + rc]), data, offset + rc, i);
      }
    }
  }

  /** A write that comes upon an error closes the connection; one that is only ever asked to call again, or
      taken, does not. */
  lemma ErrorsClose<T>(ssl: Ssl<T>, c: Conn<T>, data: seq<T>, i: nat)
    requires !c.closing && c.calls <= i < AsyncWrite(ssl, c, data).calls
    ensures ssl(i).Fatal? ==> AsyncWrite(ssl, c, data).closing
  {
    var r := AsyncWrite(ssl, c, data);
    WriteCalls(ssl, c, data);
    WriteCuts(ssl, c, data);
    if i + 1 < r.calls {
      EarlierCallsTake(ssl, c, data, 0, i);
    } else if !r.closing && Cut(ssl, c, data) == |data| {
      LastCallTook(ssl, c, data, 0);
    }
  }

  lemma {:induction false} LastCallTook<T>(ssl: Ssl<T>, c: Conn<T>, data: seq<T>, offset: nat)
    requires offset < |data| && !c.closing
    requires var r := WriteFrom(ssl, c, data, offset); !r.closing && |r.accepted| - |c.accepted| == |data| - offset
    ensures var r := WriteFrom(ssl, c, data, offset); c.calls < r.calls && ssl(r.calls - 1).Accepts?
    decreases |data| - offset
  {
    var rc := Taken(ssl(c.calls), |data| - offset);
    if rc > 0 && offset + rc < |data| {
      LastCallTook(ssl, Took(ssl, c, data[offset..offset + rc]), data, offset + rc);
    }
  }

  /** A closed connection takes nothing more and sends nothing more. */
  lemma ClosedStaysQuiet<T>(ssl: Ssl<T>, c: Conn<T>, e: Event<T>)
    requires c.closing
    ensures var r := Step(ssl, c, e);
            r.closing && r.accepted == c.accepted && r.sent == c.sent && r.bio == c.bio && r.calls == c.calls
  {
    if e.Tick? && NeedsFlush(c) { ClosedReplay(ssl, c.(scheduled := false, pending := []), c.pending); }
  }

  lemma {:induction false} ClosedReplay<T>(ssl: Ssl<T>, c: Conn<T>, queued: seq<seq<T>>)
    requires c.closing
    ensures Replay(ssl, c, queued) == c
    decreases |queued|
  {
  }

  ghost predicate Accepting<T(!new)>(ssl: Ssl<T>, n: nat) { forall i: nat :: n <= i ==> ssl(i).Accepts? }

  /** Below 2 GiB, so that what is left of it is a positive `int`. */
  predicate Small<T>(data: seq<T>) { |data| < 0x8000_0000 }

  /** A write that is always accepted, in whatever pieces: all is taken, and all ciphertext sent. */
  lemma {:induction false} AcceptedWhole<T(!new)>(ssl: Ssl<T>, c: Conn<T>, data: seq<T>, offset: nat)
    requires offset <= |data| && !c.closing && Small(data) && Accepting(ssl, c.calls)
    ensures var r := WriteFrom(ssl, c, data, offset);
            && !r.closing && r.accepted == c.accepted + data[offset..] && r.pending == c.pending
            && r.bio == [] && r.scheduled == c.scheduled && Accepting(ssl, r.calls)
    decreases |data| - offset
  {
    if offset == |data| {
      assert data[offset..] == [] && c.accepted + [] == c.accepted;
    } else {
      assert ssl(c.calls).Accepts?;
      var rc := Taken(ssl(c.calls), |data| - offset);
      var part := data[offset..offset + rc];
      AcceptedWhole(ssl, Took(ssl, c, part), data, offset + rc);
      AcceptedRest(c.accepted, data, offset, rc);
    }
  }

  lemma AcceptedRest<T>(a: seq<T>, data: seq<T>, offset: nat, rc: nat)
    requires offset + rc <= |data|
    ensures a + data[offset..offset + rc] + data[offset + rc..] == a + data[offset..]
  {
  }

  lemma {:induction false} ReplayedWhole<T(!new)>(ssl: Ssl<T>, c: Conn<T>, queued: seq<seq<T>>)
    requires !c.closing && c.bio == [] && c.pending == [] && !c.scheduled && Accepting(ssl, c.calls)
    requires forall k :: 0 <= k < |queued| ==> Small(queued[k])
    ensures var r := Replay(ssl, c, queued);
            && !r.closing && r.accepted == c.accepted + Flat(queued) && r.pending == [] && r.bio == [] && !r.scheduled
    decreases |queued|
  {
    if queued == [] {
      assert c.accepted + [] == c.accepted;
    } else {
      var next := AsyncWrite(ssl, c, queued[0]);
      if queued[0] == [] {
        assert c.accepted + [] == c.accepted;
      } else {
        AcceptedWhole(ssl, c, queued[0], 0);
        assert queued[0][0..] == queued[0];
      }
      ReplayedWhole(ssl, next, queued[1..]);
      Assoc(c.accepted, queued[0], Flat(queued[1..]));
    }
  }

  /** Once `SSL_write` accepts again, in whatever pieces, one flush takes everything that was pending in
      order, sends all ciphertext, and leaves nothing to flush. */
  lemma FlushGetsThrough<T(!new)>(ssl: Ssl<T>, c: Conn<T>)
    requires !c.closing && Accepting(ssl, c.calls) && forall k :: 0 <= k < |c.pending| ==> Small(c.pending[k])
    ensures var r := MaybeFlush(ssl, c);
            !r.closing && r.accepted == c.accepted + Flat(c.pending) && !NeedsFlush(r)
  {
    if NeedsFlush(c) {
      ReplayedWhole(ssl, Pump(c.(scheduled := false)).(pending := []), c.pending);
    } else {
      assert c.accepted + [] == c.accepted;
    }
  }

  // ---- A quiet connection

  /** A connection that needs no flush has handed over everything: OpenSSL has taken all octets, each
      once, and the socket has all the ciphertext. */
  lemma QuietMeansDone<T>(ssl: Ssl<T>, events: seq<Event<T>>)
    requires !Run(ssl, events).closing && !NeedsFlush(Run(ssl, events))
    ensures var r := Run(ssl, events);
            && multiset(r.accepted) == multiset(Submitted(events))
            && (OrderlyRun(ssl, events) ==> r.accepted == Submitted(events))
            && r.sent == Produced(ssl, r.calls)
  {
    NothingIsLost(ssl, events);
    InOrderExactly(ssl, events);
    RunRelays(ssl, events);
  }

  // ---- What a caller can check before a step

  /** A length that `SSL_write` can be offered: the cast to `int` does not make it negative or zero. */
  predicate Offerable<T>(data: seq<T>) {
    IntCast(|data|) > 0
  }

  /** A write with nothing pending, or a round with nothing to offer behind its first buffer. */
  predicate Safe<T(==)>(c: Conn<T>, e: Event<T>) {
    match e
    case Write(data) => c.pending == [] || !Offerable(data)
    case Tick => forall k :: 1 <= k < |c.pending| ==> !Offerable(c.pending[k])
    case Shut => true
  }

  lemma UnofferableCut<T>(ssl: Ssl<T>, c: Conn<T>, data: seq<T>)
    requires !Offerable(data)
    ensures Cut(ssl, c, data) == 0
  {
  }

  lemma {:induction false} UnofferableCuts<T>(ssl: Ssl<T>, c: Conn<T>, queued: seq<seq<T>>)
    requires forall k :: 0 <= k < |queued| ==> !Offerable(queued[k])
    ensures Nothing(Cuts(ssl, c, queued))
    decreases |queued|
  {
    if queued != [] {
      UnofferableCut(ssl, c, queued[0]);
      UnofferableCuts(ssl, AsyncWrite(ssl, c, queued[0]), queued[1..]);
    }
  }

  lemma {:induction false} NothingPersists<T>(queued: seq<seq<T>>, cuts: seq<int>)
    requires Fits(queued, cuts) && Nothing(cuts)
    ensures Persists(queued, cuts)
  {
    if queued != [] { NothingPersists(queued[1..], cuts[1..]); }
  }

  /** A safe step is orderly whatever `SSL_write` does. */
  lemma SafeIsOrderly<T>(ssl: Ssl<T>, c: Conn<T>, e: Event<T>)
    requires !Step(ssl, c, e).closing && Safe(c, e)
    ensures Orderly(ssl, c, e)
  {
    if e.Write? {
      if !Offerable(e.data) { UnofferableCut(ssl, c, e.data); }
    } else if e.Tick? && NeedsFlush(c) {
      TickCuts(ssl, c);
      if c.pending != [] {
        var p := Pump(c.(scheduled := false)).(pending := []);
        UnofferableCuts(ssl, AsyncWrite(ssl, p, c.pending[0]), c.pending[1..]);
        NothingPersists(c.pending[1..], Round(ssl, c)[1..]);
      }
    }
  }

  predicate SafeRun<T(==)>(ssl: Ssl<T>, events: seq<Event<T>>) {
    events == [] ||
    var earlier := events[..|events| - 1];
    SafeRun(ssl, earlier) && Safe(Run(ssl, earlier), events[|events| - 1])
  }

  lemma {:induction false} SafeRunIsOrderly<T>(ssl: Ssl<T>, events: seq<Event<T>>)
    requires !Run(ssl, events).closing && SafeRun(ssl, events)
    ensures OrderlyRun(ssl, events)
  {
    if events != [] {
      var earlier, e := events[..|events| - 1], events[|events| - 1];
      StepConserves(ssl, Run(ssl, earlier), e);
      SafeRunIsOrderly(ssl, earlier);
      SafeIsOrderly(ssl, Run(ssl, earlier), e);
    }
  }

  /** The application writes only when nothing is pending. */
  predicate Patient<T(==)>(ssl: Ssl<T>, events: seq<Event<T>>) {
    events == [] ||
    var earlier, e := events[..|events| - 1], events[|events| - 1];
    Patient(ssl, earlier) && (Offered(e) != [] ==> Run(ssl, earlier).pending == [])
  }

  lemma {:induction false} PatientIsSafe<T>(ssl: Ssl<T>, events: seq<Event<T>>)
    requires !Run(ssl, events).closing && Patient(ssl, events)
    ensures SafeRun(ssl, events) && |Run(ssl, events).pending| <= 1
  {
    if events != [] {
      var earlier, e := events[..|events| - 1], events[|events| - 1];
      StepConserves(ssl, Run(ssl, earlier), e);
      PatientIsSafe(ssl, earlier);
      PatientStep(ssl, Run(ssl, earlier), e);
    }
  }

  lemma PatientStep<T>(ssl: Ssl<T>, c: Conn<T>, e: Event<T>)
    requires !Step(ssl, c, e).closing
    requires |c.pending| <= 1 && (Offered(e) != [] ==> c.pending == [])
    ensures Safe(c, e) && |Step(ssl, c, e).pending| <= 1
  {
    if e.Write? {
      StepConserves(ssl, c, e);
      WriteCuts(ssl, c, e.data);
    } else if NeedsFlush(c) {
      TickCuts(ssl, c);
      if c.pending != [] { assert Round(ssl, c)[1..] == [] && c.pending[1..] == []; }
    }
  }

  /** Whatever `SSL_write` does short of an error: if the application writes only when nothing is
      pending, at most one buffer is ever pending, and octets taken followed by octets owed are what
      was submitted, in order. */
  lemma PatienceKeepsOrder<T>(ssl: Ssl<T>, events: seq<Event<T>>)
    requires !Run(ssl, events).closing && Patient(ssl, events)
    ensures var r := Run(ssl, events);
            |r.pending| <= 1 && r.accepted + Flat(r.pending) == Submitted(events)
  {
    PatientIsSafe(ssl, events);
    SafeRunIsOrderly(ssl, events);
    InOrderExactly(ssl, events);
  }

  // ---- An unsafe step can go wrong

  ghost predicate Agree<T(!new)>(ssl: Ssl<T>, ssl': Ssl<T>, n: nat) {
    forall i: nat :: i < n ==> ssl(i) == ssl'(i)
  }

  lemma TookAgrees<T(!new)>(ssl: Ssl<T>, ssl': Ssl<T>, c: Conn<T>, part: seq<T>)
    requires ssl(c.calls) == ssl'(c.calls)
    ensures Took(ssl', c, part) == Took(ssl, c, part) && Called(ssl', c) == Called(ssl, c)
  {
  }

  lemma {:induction false} WriteFromAgrees<T(!new)>(ssl: Ssl<T>, ssl': Ssl<T>, c: Conn<T>, data: seq<T>, offset: nat)
    requires offset <= |data| && !c.closing && Agree(ssl, ssl', WriteFrom(ssl, c, data, offset).calls)
    ensures WriteFrom(ssl', c, data, offset) == WriteFrom(ssl, c, data, offset)
    decreases |data| - offset
  {
    if offset < |data| {
      FirstCall(ssl, c, data, offset);
      var rc := Taken(ssl(c.calls), |data| - offset);
      if rc > 0 {
        var next := Took(ssl, c, data[offset..offset + rc]);
        TookAgrees(ssl, ssl', c, data[offset..offset + rc]);
        WriteFromAgrees(ssl, ssl', next, data, offset + rc);
      }
    }
  }

  lemma {:induction false} ReplayAgrees<T(!new)>(ssl: Ssl<T>, ssl': Ssl<T>, c: Conn<T>, queued: seq<seq<T>>)
    requires Agree(ssl, ssl', Replay(ssl, c, queued).calls)
    ensures Replay(ssl', c, queued) == Replay(ssl, c, queued)
    decreases |queued|
  {
    if queued != [] {
      var next := AsyncWrite(ssl, c, queued[0]);
      ReplayCalls(ssl, next, queued[1..]);
      if !c.closing { WriteAgrees(ssl, ssl', c, queued[0]); }
      ReplayAgrees(ssl, ssl', next, queued[1..]);
    }
  }

  lemma WriteAgrees<T(!new)>(ssl: Ssl<T>, ssl': Ssl<T>, c: Conn<T>, data: seq<T>)
    requires Agree(ssl, ssl', AsyncWrite(ssl, c, data).calls)
    ensures AsyncWrite(ssl', c, data) == AsyncWrite(ssl, c, data)
  {
    if !c.closing && data != [] { WriteFromAgrees(ssl, ssl', c, data, 0); }
  }

  lemma StepAgrees<T(!new)>(ssl: Ssl<T>, ssl': Ssl<T>, c: Conn<T>, e: Event<T>)
    requires Agree(ssl, ssl', Step(ssl, c, e).calls)
    ensures Step(ssl', c, e) == Step(ssl, c, e) && c.calls <= Step(ssl, c, e).calls
  {
    if e.Write? {
      WriteAgrees(ssl, ssl', c, e.data);
      if !c.closing { WriteCalls(ssl, c, e.data); }
    } else if e.Tick? && NeedsFlush(c) {
      var p := Pump(c.(scheduled := false));
      ReplayAgrees(ssl, ssl', p.(pending := []), p.pending);
      ReplayCalls(ssl, p.(pending := []), p.pending);
    }
  }

  /** A run depends only on the answers it has been given. */
  lemma {:induction false} RunAgrees<T(!new)>(ssl: Ssl<T>, ssl': Ssl<T>, events: seq<Event<T>>)
    requires Agree(ssl, ssl', Run(ssl, events).calls)
    ensures Run(ssl', events) == Run(ssl, events)
  {
    if events != [] {
      var earlier, e := events[..|events| - 1], events[|events| - 1];
      StepAgrees(ssl, ssl', Run(ssl, earlier), e);
      RunAgrees(ssl, ssl', earlier);
    }
  }

  /** The answers so far, then one octet at call `n`, and otherwise being asked to call again. */
  function OnceAt<T(!new)>(ssl: Ssl<T>, calls: nat, n: nat): Ssl<T> {
    (i: nat) => if i < calls then ssl(i) else if i == n then Accepts(0, []) else Want([])
  }

  /** Only call `n` of those still to come takes anything. */
  ghost predicate TakesOnceAt<T(!new)>(ssl: Ssl<T>, c: Conn<T>, n: nat) {
    c.calls <= n && ssl(n) == Accepts(0, []) && forall i: nat :: c.calls <= i && i != n ==> ssl(i) == Want([])
  }

  /** No pending buffer is empty. */
  predicate Solid<T(==)>(queued: seq<seq<T>>) {
    [] !in queued
  }

  lemma WriteWaits<T(!new)>(ssl: Ssl<T>, c: Conn<T>, data: seq<T>)
    requires !c.closing && data != [] && ssl(c.calls) == Want([])
    ensures var r := AsyncWrite(ssl, c, data); !r.closing && r.calls == c.calls + 1 && Cut(ssl, c, data) == 0
  {
  }

  lemma WriteTakesOne<T(!new)>(ssl: Ssl<T>, c: Conn<T>, data: seq<T>)
    requires !c.closing && Offerable(data) && TakesOnceAt(ssl, c, c.calls)
    ensures var r := AsyncWrite(ssl, c, data); !r.closing && Cut(ssl, c, data) > 0 && c.calls < r.calls
  {
    assert ssl(c.calls + 1) == Want([]);
    var next := Took(ssl, c, data[0..0 + 1]);
    assert AsyncWrite(ssl, c, data) == WriteFrom(ssl, next, data, 0 + 1);
  }

  lemma {:induction false} ReplayWaits<T(!new)>(ssl: Ssl<T>, c: Conn<T>, queued: seq<seq<T>>)
    requires !c.closing && Solid(queued) && forall i: nat :: c.calls <= i ==> ssl(i) == Want([])
    ensures !Replay(ssl, c, queued).closing
    decreases |queued|
  {
    if queued != [] {
      assert queued[0] != [];
      WriteWaits(ssl, c, queued[0]);
      ReplayWaits(ssl, AsyncWrite(ssl, c, queued[0]), queued[1..]);
    }
  }

  lemma {:induction false} ReplayTakesBehind<T(!new)>(ssl: Ssl<T>, c: Conn<T>, queued: seq<seq<T>>, k: nat)
    requires !c.closing && Solid(queued) && k < |queued| && Offerable(queued[k])
    requires TakesOnceAt(ssl, c, c.calls + k)
    ensures !Replay(ssl, c, queued).closing
    ensures |Cuts(ssl, c, queued)| == |queued| && Cuts(ssl, c, queued)[k] > 0
    ensures k > 0 ==> Cuts(ssl, c, queued)[0] == 0
    decreases |queued|
  {
    CutsLength(ssl, c, queued);
    assert queued[0] != [];
    var next := AsyncWrite(ssl, c, queued[0]);
    if k == 0 {
      WriteTakesOne(ssl, c, queued[0]);
      ReplayWaits(ssl, next, queued[1..]);
    } else {
      assert ssl(c.calls) == Want([]);
      WriteWaits(ssl, c, queued[0]);
      ReplayTakesBehind(ssl, next, queued[1..], k - 1);
      assert Cuts(ssl, c, queued)[1..][k - 1] == Cuts(ssl, c, queued)[k];
    }
  }

  lemma {:induction false} CutsLength<T>(ssl: Ssl<T>, c: Conn<T>, queued: seq<seq<T>>)
    ensures |Cuts(ssl, c, queued)| == |queued|
    decreases |queued|
  {
    if queued != [] { CutsLength(ssl, AsyncWrite(ssl, c, queued[0]), queued[1..]); }
  }

  lemma UnsafeTick<T(!new)>(ssl: Ssl<T>, c: Conn<T>, k: nat)
    requires !c.closing && Solid(c.pending) && 1 <= k < |c.pending| && Offerable(c.pending[k])
    requires TakesOnceAt(ssl, c, c.calls + k)
    ensures !Step(ssl, c, Tick).closing && !Orderly(ssl, c, Tick)
  {
    var p := Pump(c.(scheduled := false)).(pending := []);
    ReplayTakesBehind(ssl, p, c.pending, k);
    TickCuts(ssl, c);
    assert c.pending[0] != [];
    var cuts := Round(ssl, c);
    assert cuts[1..][k - 1] == cuts[k];
  }

  lemma UnsafeWrite<T(!new)>(ssl: Ssl<T>, c: Conn<T>, data: seq<T>)
    requires !c.closing && Solid(c.pending) && c.pending != [] && Offerable(data)
    requires TakesOnceAt(ssl, c, c.calls)
    ensures !Step(ssl, c, Write(data)).closing && !Orderly(ssl, c, Write(data))
  {
    WriteTakesOne(ssl, c, data);
    assert c.pending[0] != [];
  }

  lemma {:induction false} TailsSolid<T>(queued: seq<seq<T>>, cuts: seq<int>)
    requires Fits(queued, cuts)
    ensures Solid(Tails(queued, cuts))
  {
    if queued != [] { TailsSolid(queued[1..], cuts[1..]); }
  }

  lemma {:induction false} RunSolid<T>(ssl: Ssl<T>, events: seq<Event<T>>)
    requires !Run(ssl, events).closing
    ensures Solid(Run(ssl, events).pending)
  {
    if events != [] {
      var earlier, e := events[..|events| - 1], events[|events| - 1];
      var c := Run(ssl, earlier);
      StepConserves(ssl, c, e);
      RunSolid(ssl, earlier);
      if e.Write? {
        WriteCuts(ssl, c, e.data);
      } else if NeedsFlush(c) {
        TickCuts(ssl, c);
        TailsSolid(c.pending, Round(ssl, c));
      }
    }
  }

  /** For an unsafe step, answers of `SSL_write` that agree with all it has given so far, keep the
      connection open and let an octet overtake another. */
  lemma UnsafeGoesWrong<T(!new)>(ssl: Ssl<T>, events: seq<Event<T>>, e: Event<T>) returns (ssl': Ssl<T>)
    requires var c := Run(ssl, events);
             !c.closing && c.accepted + Flat(c.pending) == Submitted(events) && !Safe(c, e)
    requires Distinct(Submitted(events + [e]))
    ensures Agree(ssl, ssl', Run(ssl, events).calls) && !Run(ssl', events + [e]).closing
    ensures !(Run(ssl', events + [e]).accepted <= Submitted(events + [e]))
  {
    var c := Run(ssl, events);
    RunSolid(ssl, events);
    if e.Write? {
      ssl' := OnceAt(ssl, c.calls, c.calls);
      UnsafeWrite(ssl', c, e.data);
    } else {
      var k :| 1 <= k < |c.pending| && Offerable(c.pending[k]);
      ssl' := OnceAt(ssl, c.calls, c.calls + k);
      UnsafeTick(ssl', c, k);
    }
    RunAgrees(ssl, ssl', events);
    RunSnoc(ssl', events, e);
    SubmittedSnoc(events, e);
    StepOrder(ssl', c, e, Submitted(events));
  }

  lemma SubmittedSnoc<T>(events: seq<Event<T>>, e: Event<T>)
    ensures Submitted(events + [e]) == Submitted(events) + Offered(e)
  {
    assert (events + [e])[..|events|] == events;
  }

  lemma SafeStaysInOrder<T(!new)>(ssl: Ssl<T>, ssl': Ssl<T>, events: seq<Event<T>>, e: Event<T>)
    requires var c := Run(ssl, events); c.accepted + Flat(c.pending) == Submitted(events) && Safe(c, e)
    requires Agree(ssl, ssl', Run(ssl, events).calls) && !Run(ssl', events + [e]).closing
    ensures var r := Run(ssl', events + [e]); r.accepted + Flat(r.pending) == Submitted(events + [e])
  {
    RunAgrees(ssl, ssl', events);
    RunSnoc(ssl', events, e);
    SubmittedSnoc(events, e);
    SafeIsOrderly(ssl', Run(ssl, events), e);
    StepOrder(ssl', Run(ssl, events), e, Submitted(events));
  }

  /** From any run that is open and in order, with octets that can be told apart: the next step is sure
      to keep the order, whatever `SSL_write` answers, if and only if it is safe. */
  lemma SafeExactly<T(!new)>(ssl: Ssl<T>, events: seq<Event<T>>, e: Event<T>)
    requires var c := Run(ssl, events); !c.closing && c.accepted + Flat(c.pending) == Submitted(events)
    requires Distinct(Submitted(events + [e]))
    ensures Safe(Run(ssl, events), e) <==>
            forall ssl': Ssl<T> :: Agree(ssl, ssl', Run(ssl, events).calls) && !Run(ssl', events + [e]).closing ==>
              Run(ssl', events + [e]).accepted <= Submitted(events + [e])
  {
    if Safe(Run(ssl, events), e) {
      forall ssl': Ssl<T> | Agree(ssl, ssl', Run(ssl, events).calls) && !Run(ssl', events + [e]).closing
        ensures Run(ssl', events + [e]).accepted <= Submitted(events + [e])
      {
        SafeStaysInOrder(ssl, ssl', events, e);
      }
    } else {
      var ssl' := UnsafeGoesWrong(ssl, events, e);
    }
  }

  // ---- Write by write

  /** The octets of the write `k`; `owner` tells which write an octet is from. */
  function Part<T>(s: seq<T>, owner: T -> int, k: int): seq<T> {
    if s == [] then [] else (if owner(s[0]) == k then [s[0]] else []) + Part(s[1..], owner, k)
  }

  ghost predicate Owners<T>(events: seq<Event<T>>, owner: T -> int) {
    forall k, x :: 0 <= k < |events| && x in Offered(events[k]) ==> owner(x) == k
  }

  lemma {:induction false} PartJoined<T>(a: seq<T>, b: seq<T>, owner: T -> int, k: int)
    ensures Part(a + b, owner, k) == Part(a, owner, k) + Part(b, owner, k)
  {
    if a == [] {
      assert a + b == b;
    } else {
      assert (a + b)[1..] == a[1..] + b;
      PartJoined(a[1..], b, owner, k);
      Assoc(if owner(a[0]) == k then [a[0]] else [], Part(a[1..], owner, k), Part(b, owner, k));
    }
  }

  lemma {:induction false} WholePart<T>(s: seq<T>, owner: T -> int, k: int)
    ensures (forall x :: x in s ==> owner(x) == k) ==> Part(s, owner, k) == s
    ensures (forall x :: x in s ==> owner(x) != k) ==> Part(s, owner, k) == []
  {
    if s != [] {
      assert s[0] in s && forall x :: x in s[1..] ==> x in s;
      WholePart(s[1..], owner, k);
    }
  }

  /** Every buffer is from one write, and no other buffer is from the same one. */
  ghost predicate Alone<T>(queued: seq<seq<T>>, owner: T -> int) {
    queued == [] || (
      && (forall x, y :: x in queued[0] && y in queued[0] ==> owner(x) == owner(y))
      && (forall x, y :: x in queued[0] && y in Flat(queued[1..]) ==> owner(x) != owner(y))
      && Alone(queued[1..], owner))
  }

  lemma TailsQueued<T>(queued: seq<seq<T>>, cuts: seq<int>)
    requires Fits(queued, cuts)
    ensures forall x :: x in Heads(queued, cuts) ==> x in Flat(queued)
    ensures forall x :: x in Flat(Tails(queued, cuts)) ==> x in Flat(queued)
  {
    CutsConserve(queued, cuts);
    SumMembers(Heads(queued, cuts), Flat(Tails(queued, cuts)), Flat(queued));
  }

  lemma SumMembers<T>(a: seq<T>, b: seq<T>, s: seq<T>)
    requires multiset(a) + multiset(b) == multiset(s)
    ensures forall x :: x in a ==> x in s
    ensures forall x :: x in b ==> x in s
  {
    forall x | x in a ensures x in s { assert x in multiset(a) + multiset(b); }
    forall x | x in b ensures x in s { assert x in multiset(a) + multiset(b); }
  }

  lemma ConsAlone<T>(first: seq<T>, more: seq<seq<T>>, owner: T -> int)
    requires forall x, y :: x in first && y in first ==> owner(x) == owner(y)
    requires forall x, y :: x in first && y in Flat(more) ==> owner(x) != owner(y)
    requires Alone(more, owner)
    ensures Alone([first] + more, owner)
  {
    assert ([first] + more)[1..] == more;
  }

  lemma {:induction false} TailsAlone<T>(queued: seq<seq<T>>, cuts: seq<int>, owner: T -> int)
    requires Fits(queued, cuts) && Alone(queued, owner)
    ensures Alone(Tails(queued, cuts), owner)
  {
    if queued != [] {
      TailsAlone(queued[1..], cuts[1..], owner);
      TailsQueued(queued[1..], cuts[1..]);
      if cuts[0] < |queued[0]| {
        var rest := queued[0][cuts[0]..];
        assert forall x :: x in rest ==> x in queued[0];
        var tails := Tails(queued[1..], cuts[1..]);
        forall x, y | x in rest && y in Flat(tails) ensures owner(x) != owner(y) {
          assert x in queued[0] && y in Flat(queued[1..]);
        }
        ConsAlone(rest, tails, owner);
      } else {
        assert Tails(queued, cuts) == Tails(queued[1..], cuts[1..]);
      }
    }
  }

  lemma {:induction false} AppendAlone<T>(queued: seq<seq<T>>, data: seq<T>, owner: T -> int, n: int)
    requires Alone(queued, owner)
    requires forall x :: x in Flat(queued) ==> owner(x) != n
    requires forall x :: x in data ==> owner(x) == n
    ensures Alone(queued + [data], owner)
  {
    if queued == [] {
      assert queued + [data] == [data];
    } else {
      var more := queued[1..] + [data];
      assert (queued + [data])[1..] == more;
      AppendAlone(queued[1..], data, owner, n);
      FlatJoined(queued[1..], [data]);
      FlatOne(data);
      assert forall x :: x in queued[0] ==> x in Flat(queued);
    }
  }

  lemma FlatOne<T>(data: seq<T>)
    ensures Flat([data]) == data
  {
    assert [data][1..] == [];
    assert data + [] == data;
  }

  /** What a round takes and leaves of one write is what was queued of it, in order. */
  lemma {:induction false} RoundKeepsParts<T>(queued: seq<seq<T>>, cuts: seq<int>, owner: T -> int, k: int)
    requires Fits(queued, cuts) && Alone(queued, owner)
    ensures Part(Heads(queued, cuts), owner, k) + Part(Flat(Tails(queued, cuts)), owner, k)
         == Part(Flat(queued), owner, k)
  {
    if queued != [] {
      var front, rest := queued[0][..cuts[0]], Flat(Rest(queued[0], cuts[0]));
      var heads, tails := Heads(queued[1..], cuts[1..]), Flat(Tails(queued[1..], cuts[1..]));
      RoundKeepsParts(queued[1..], cuts[1..], owner, k);
      RestFlat(queued[0], cuts[0]);
      FlatJoined(Rest(queued[0], cuts[0]), Tails(queued[1..], cuts[1..]));
      PartJoined(front, heads, owner, k);
      PartJoined(rest, tails, owner, k);
      PartJoined(front, rest, owner, k);
      PartJoined(queued[0], Flat(queued[1..]), owner, k);
      TailsQueued(queued[1..], cuts[1..]);
      FirstOrLater(queued[0], heads, tails, owner, k);
      Interleave(Part(front, owner, k), Part(rest, owner, k), Part(heads, owner, k), Part(tails, owner, k));
    }
  }

  /** Of one write, only the first buffer or only the later ones have octets. */
  lemma FirstOrLater<T>(first: seq<T>, heads: seq<T>, tails: seq<T>, owner: T -> int, k: int)
    requires forall x, y :: x in first && y in first ==> owner(x) == owner(y)
    requires forall x, y :: x in first && (y in heads || y in tails) ==> owner(x) != owner(y)
    ensures Part(first, owner, k) == [] || (Part(heads, owner, k) == [] && Part(tails, owner, k) == [])
  {
    WholePart(first, owner, k);
    WholePart(heads, owner, k);
    WholePart(tails, owner, k);
  }

  lemma Interleave<T>(a: seq<T>, b: seq<T>, c: seq<T>, d: seq<T>)
    requires a + b == [] || c + d == []
    ensures (a + c) + (b + d) == (a + b) + (c + d)
  {
    if a + b == [] { assert a == [] && b == []; } else { assert c == [] && d == []; }
  }

  ghost predicate Before<T>(s: seq<T>, owner: T -> int, n: nat) {
    forall x :: x in s ==> owner(x) < n
  }

  lemma {:induction false} SubmittedOwners<T>(events: seq<Event<T>>, owner: T -> int)
    requires Owners(events, owner)
    ensures Before(Submitted(events), owner, |events|)
  {
    if events != [] {
      OwnersFront(events, owner);
      SubmittedOwners(events[..|events| - 1], owner);
    }
  }

  lemma OwnersFront<T>(events: seq<Event<T>>, owner: T -> int)
    requires Owners(events, owner) && events != []
    ensures Owners(events[..|events| - 1], owner)
    ensures forall x :: x in Offered(events[|events| - 1]) ==> owner(x) == |events| - 1
  {
  }

  /** Octets of the run so far are from earlier writes. */
  lemma RunOwners<T>(ssl: Ssl<T>, events: seq<Event<T>>, owner: T -> int)
    requires !Run(ssl, events).closing && Owners(events, owner)
    ensures var r := Run(ssl, events);
            Before(r.accepted, owner, |events|) && Before(Flat(r.pending), owner, |events|)
  {
    NothingIsLost(ssl, events);
    SubmittedOwners(events, owner);
    SumMembers(Run(ssl, events).accepted, Flat(Run(ssl, events).pending), Submitted(events));
  }

  /** Octets of the run so far are from earlier writes, those of the step from this one. */
  ghost predicate StepOwners<T>(c: Conn<T>, e: Event<T>, owner: T -> int, n: nat) {
    && Before(c.accepted, owner, n) && Before(Flat(c.pending), owner, n)
    && (forall x :: x in Offered(e) ==> owner(x) == n)
  }

  lemma LastStepOwners<T>(ssl: Ssl<T>, events: seq<Event<T>>, owner: T -> int)
    requires events != [] && !Run(ssl, events).closing && Owners(events, owner)
    ensures Owners(events[..|events| - 1], owner) && !Run(ssl, events[..|events| - 1]).closing
    ensures StepOwners(Run(ssl, events[..|events| - 1]), events[|events| - 1], owner, |events| - 1)
  {
    var earlier, e := events[..|events| - 1], events[|events| - 1];
    StepConserves(ssl, Run(ssl, earlier), e);
    OwnersFront(events, owner);
    RunOwners(ssl, earlier, owner);
  }

  lemma {:induction false} RunAlone<T>(ssl: Ssl<T>, events: seq<Event<T>>, owner: T -> int)
    requires !Run(ssl, events).closing && Owners(events, owner)
    ensures Alone(Run(ssl, events).pending, owner)
  {
    if events != [] {
      var earlier, e := events[..|events| - 1], events[|events| - 1];
      LastStepOwners(ssl, events, owner);
      RunAlone(ssl, earlier, owner);
      StepAlone(ssl, Run(ssl, earlier), e, owner, |earlier|);
    }
  }

  lemma StepAlone<T>(ssl: Ssl<T>, c: Conn<T>, e: Event<T>, owner: T -> int, n: nat)
    requires !Step(ssl, c, e).closing && Alone(c.pending, owner) && StepOwners(c, e, owner, n)
    ensures Alone(Step(ssl, c, e).pending, owner)
  {
    StepConserves(ssl, c, e);
    if e.Write? {
      WriteAlone(ssl, c, e.data, owner, n);
    } else if NeedsFlush(c) {
      TickCuts(ssl, c);
      TailsAlone(c.pending, Round(ssl, c), owner);
    }
  }

  lemma WriteAlone<T>(ssl: Ssl<T>, c: Conn<T>, data: seq<T>, owner: T -> int, n: int)
    requires !AsyncWrite(ssl, c, data).closing && Alone(c.pending, owner)
    requires forall x :: x in Flat(c.pending) ==> owner(x) < n
    requires forall x :: x in data ==> owner(x) == n
    ensures Alone(AsyncWrite(ssl, c, data).pending, owner)
  {
    WriteCuts(ssl, c, data);
    var k := Cut(ssl, c, data);
    if k < |data| {
      AppendAlone(c.pending, data[k..], owner, n);
    } else {
      assert c.pending + [] == c.pending;
    }
  }

  lemma WriteKeepsParts<T>(ssl: Ssl<T>, c: Conn<T>, data: seq<T>, owner: T -> int, k: int)
    requires !AsyncWrite(ssl, c, data).closing
    requires Part(Flat(c.pending), owner, k) == [] || Part(data, owner, k) == []
    ensures var r := AsyncWrite(ssl, c, data);
            Part(r.accepted, owner, k) + Part(Flat(r.pending), owner, k)
            == Part(c.accepted, owner, k) + Part(Flat(c.pending), owner, k) + Part(data, owner, k)
  {
    WriteCuts(ssl, c, data);
    var j := Cut(ssl, c, data);
    var front, rest := data[..j], Flat(Rest(data, j));
    RestFlat(data, j);
    FlatJoined(c.pending, Rest(data, j));
    PartJoined(c.accepted, front, owner, k);
    PartJoined(Flat(c.pending), rest, owner, k);
    PartJoined(front, rest, owner, k);
    SwapEmpty(Part(c.accepted, owner, k), Part(front, owner, k), Part(Flat(c.pending), owner, k), Part(rest, owner, k));
  }

  lemma SwapEmpty<T>(a: seq<T>, b: seq<T>, c: seq<T>, d: seq<T>)
    requires c == [] || b + d == []
    ensures (a + b) + (c + d) == a + c + (b + d)
  {
    if c != [] { assert b == [] && d == []; }
  }

  lemma TickKeepsParts<T>(ssl: Ssl<T>, c: Conn<T>, owner: T -> int, k: int)
    requires !MaybeFlush(ssl, c).closing && Alone(c.pending, owner)
    ensures var r := MaybeFlush(ssl, c);
            Part(r.accepted, owner, k) + Part(Flat(r.pending), owner, k)
            == Part(c.accepted, owner, k) + Part(Flat(c.pending), owner, k)
  {
    if NeedsFlush(c) {
      TickCuts(ssl, c);
      var cuts := Round(ssl, c);
      RoundKeepsParts(c.pending, cuts, owner, k);
      PartJoined(c.accepted, Heads(c.pending, cuts), owner, k);
      Assoc(Part(c.accepted, owner, k), Part(Heads(c.pending, cuts), owner, k),
            Part(Flat(Tails(c.pending, cuts)), owner, k));
    }
  }

  lemma StepKeepsParts<T>(ssl: Ssl<T>, c: Conn<T>, e: Event<T>, owner: T -> int, n: nat, k: nat)
    requires !Step(ssl, c, e).closing && Alone(c.pending, owner) && StepOwners(c, e, owner, n)
    ensures var r := Step(ssl, c, e);
            Part(r.accepted, owner, k) + Part(Flat(r.pending), owner, k)
            == (if k == n then Offered(e)
                else Part(c.accepted, owner, k) + Part(Flat(c.pending), owner, k))
  {
    WholePart(Offered(e), owner, k);
    if k == n {
      WholePart(c.accepted, owner, k);
      WholePart(Flat(c.pending), owner, k);
    }
    if e.Write? {
      WriteKeepsParts(ssl, c, e.data, owner, k);
    } else {
      TickKeepsParts(ssl, c, owner, k);
    }
  }

  /** Whatever `SSL_write` does short of an error, and however writes overtake each other: of each
      write, the octets taken followed by those owed are the octets it submitted, in order. */
  lemma {:induction false} EachWriteIsKept<T>(ssl: Ssl<T>, events: seq<Event<T>>, owner: T -> int, k: nat)
    requires !Run(ssl, events).closing && Owners(events, owner) && k < |events|
    ensures var r := Run(ssl, events);
            Part(r.accepted, owner, k) + Part(Flat(r.pending), owner, k) == Offered(events[k])
  {
    var n := |events| - 1;
    var earlier := events[..n];
    LastStepOwners(ssl, events, owner);
    RunAlone(ssl, earlier, owner);
    StepKeepsParts(ssl, Run(ssl, earlier), events[n], owner, n, k);
    if k < n { EachWriteIsKept(ssl, earlier, owner, k); }
  }
}
