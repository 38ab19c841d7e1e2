/**
 From end to end: what senders enqueue on one side of a connection is what the application
 on the other side gets, whatever the threads, the write sizes and the read sizes.
 */
module Transport {
  import opened Bytes
  import opened Framing
  import opened TranBufPool
  import opened ReadBuffers
  import opened WriteBuffers
  import R = Receiver
  import P = SendProtocol
  import G = SendProgress
  import S = Session

  // ---- What a prefix of the wire delivers -------------------------------------------------

  /** However much of the frames has arrived, the parser has given out the first messages and
      nothing else. */
  lemma {:induction false} PrefixDelivers(ms: seq<Message>, wire: seq<byte>)
    requires AllSendable(ms) && wire <= Frames(ms)
    ensures Feed(Start, wire).Running() && Feed(Start, wire).out <= Deliveries(ms)
  {
    var rest := Frames(ms)[|wire|..];
    assert Frames(ms) == wire + rest;
    FeedFrames(ms);
    FeedAppend(Start, wire, rest);
    FeedOnlyAdds(Feed(Start, wire), rest);
  }

  // ---- The receiver, chunk by chunk ---------------------------------------------------------

  /** A parser does not look at what it has given out. */
  lemma {:induction false} FeedBehind(p: Parser, out: seq<Received>, bs: seq<byte>)
    requires WellFormed(p) && p.Running() && p.out == []
    ensures WellFormed(R.GivenOut(p, out))
    ensures var q := Feed(p, bs);
            Feed(R.GivenOut(p, out), bs) == if q.Running() then R.GivenOut(q, out + q.out) else q
  {
    if bs != [] {
      var b', last := bs[..|bs| - 1], bs[|bs| - 1];
      FeedBehind(p, out, b');
      var q := Feed(p, b');
      assert Feed(p, bs) == FeedByte(q, last);
      assert Feed(R.GivenOut(p, out), bs) == FeedByte(Feed(R.GivenOut(p, out), b'), last);
      if q.Running() { OneBehind(q, out, last); }
    } else {
      assert out + p.out == out;
    }
  }

  lemma {:induction false} OneBehind(q: Parser, out: seq<Received>, b: byte)
    requires WellFormed(q) && q.Running()
    ensures WellFormed(R.GivenOut(q, out + q.out))
    ensures var r := FeedByte(q, b);
            FeedByte(R.GivenOut(q, out + q.out), b) == if r.Running() then R.GivenOut(r, out + r.out) else r
  {
    match q
    case InHeader(header, o) =>
      if |header| + 1 == HEADER_SIZE {
        var h := DecodeHeader(header + [b]);
        assert out + (o + [Received(h.metaSize, h.dataSize, [])]) == out + o + [Received(h.metaSize, h.dataSize, [])];
      }
    case InBody(h, body, o) =>
      assert out + (o + [Received(h.metaSize, h.dataSize, body + [b])]) == out + o + [Received(h.metaSize, h.dataSize, body + [b])];
  }

  /** After `pos` bytes the stream and the messages given out so far are where the parser is. */
  ghost predicate Kept(v0: Parser, wire: seq<byte>, pos: nat, view: Parser, out: seq<Received>) {
    WellFormed(v0) && pos <= |wire| && view.Running() && view.out == [] && Feed(v0, wire[..pos]) == R.GivenOut(view, out)
  }

  lemma {:induction false} KeptMore(v0: Parser, wire: seq<byte>, pos: nat, view: Parser, out: seq<Received>, n: nat,
                                    view': Parser, out': seq<Received>)
    requires Kept(v0, wire, pos, view, out) && pos + n <= |wire| && WellFormed(view)
    requires Feed(view, wire[pos..pos + n]) == R.GivenOut(view', out') && view'.Running() && view'.out == []
    ensures Kept(v0, wire, pos + n, view', out + out')
  {
    assert wire[..pos + n] == wire[..pos] + wire[pos..pos + n];
    FeedAppend(v0, wire[..pos], wire[pos..pos + n]);
    FeedBehind(view, out, wire[pos..pos + n]);
    assert Feed(view, wire[pos..pos + n]).out == out';
  }

  lemma {:induction false} ChunkRuns(v0: Parser, wire: seq<byte>, pos: nat, view: Parser, out: seq<Received>, n: nat)
    requires Kept(v0, wire, pos, view, out) && pos + n <= |wire| && WellFormed(view) && Feed(v0, wire).Running()
    ensures Feed(view, wire[pos..pos + n]).Running()
  {
    assert wire == wire[..pos] + wire[pos..pos + n] + wire[pos + n..];
    FeedAppend(v0, wire[..pos] + wire[pos..pos + n], wire[pos + n..]);
    FeedAppend(v0, wire[..pos], wire[pos..pos + n]);
    FeedBehind(view, out, wire[pos..pos + n]);
    if !Feed(view, wire[pos..pos + n]).Running() { FeedStuck(Feed(view, wire[pos..pos + n]), wire[pos + n..]); }
  }

  /** One chunk. */
  method DeliverChunk(rx: R.Receiver, wire: seq<byte>, pos: nat, n: nat, ghost v0: Parser, ghost out: seq<Received>)
    returns (ok: bool, ghost out': seq<Received>)
    requires rx.Ready() && 0 < n <= rx.size && pos + n <= |wire|
    requires Kept(v0, wire, pos, rx.View(), out) && Feed(v0, wire).Running()
    modifies rx, rx.pool
    ensures rx.Valid() && (ok ==> rx.Ready() && Kept(v0, wire, pos + n, rx.View(), out + out'))
    ensures ok ==> R.Outs(rx.pool.blocks, rx.held) == old(R.Outs(rx.pool.blocks, rx.held)) + out'
    ensures rx.pool.refused == old(rx.pool.refused) + if ok then 0 else 1
  {
    ghost var view, held := rx.View(), rx.held;
    ChunkRuns(v0, wire, pos, view, out, n);
    var result, received := rx.OnReadSome(wire[pos..pos + n]);
    ok, out' := result == R.Done, [];
    if ok {
      R.ConcatOuts(rx.pool.blocks, held, received);
      out' := R.Outs(rx.pool.blocks, received);
      KeptMore(v0, wire, pos, view, out, n, rx.View(), out');
    }
  }

  /** The transport delivers a stretch of the wire in chunks of any sizes. */
  method Deliver(rx: R.Receiver, wire: seq<byte>) returns (ok: bool, ghost out: seq<Received>)
    requires rx.Ready() && Feed(rx.View(), wire).Running()
    modifies rx, rx.pool
    ensures rx.Valid() && (ok ==> rx.Ready() && old(Feed(rx.View(), wire)) == R.GivenOut(rx.View(), out))
    ensures ok ==> R.ReadableAll(rx.pool.blocks, rx.held)
                   && R.Outs(rx.pool.blocks, rx.held) == old(R.Outs(rx.pool.blocks, rx.held)) + out
    ensures rx.pool.refused == old(rx.pool.refused) + if ok then 0 else 1
  {
    ghost var v0, before := rx.View(), R.Outs(rx.pool.blocks, rx.held);
    var pos := 0;
    out, ok := [], true;
    assert wire[..0] == [];
    while pos < |wire|
      invariant 0 <= pos <= |wire| && ok && rx.Ready() && rx.pool.refused == old(rx.pool.refused)
      invariant Kept(v0, wire, pos, rx.View(), out)
      invariant R.Outs(rx.pool.blocks, rx.held) == before + out
    {
      var most := if |wire| - pos < rx.size then |wire| - pos else rx.size;
      var n := 1;
      if * { n :| 0 < n <= most; }
      ghost var more;
      ok, more := DeliverChunk(rx, wire, pos, n, v0, out);
      if !ok { return; }
      out := out + more;
      pos := pos + n;
    }
    assert wire[..pos] == wire;
  }

  // ---- What the senders enqueue -----------------------------------------------------------------

  /** The buffers enqueued hold the frames of the messages. */
  ghost predicate Carries(q: seq<P.Message>, ms: seq<Message>)
    requires AllSendable(ms)
  {
    |q| == |ms| && forall i :: 0 <= i < |q| ==> q[i].bytes == Frame(ms[i])
  }

  lemma {:induction false} ConcatFrames(q: seq<P.Message>, ms: seq<Message>)
    requires AllSendable(ms) && Carries(q, ms)
    ensures P.Concat(q) == Frames(ms)
  {
    if q != [] { ConcatFrames(q[..|q| - 1], ms[..|ms| - 1]); }
  }

  /** A buffer of this pool with the bytes and the block sizes of an entry of the queue. */
  ghost predicate Holds(pool: TranBufPool, buffer: ReadBuffer, entry: P.Message)
    reads pool, buffer
  {
    && buffer.pool == pool && buffer.Valid() && buffer.readBytes == 0
    && buffer.Contents() == entry.bytes && buffer.totalBlockSize == entry.blockBytes
  }

  /** The bytes of a list in a memory, if it can be read. */
  ghost predicate Shows(m: Memory, hs: Handles, bytes: seq<byte>) {
    AllReadable(m, hs) && Flatten(m, hs) == bytes
  }

  lemma StillShows(m: Memory, n: Memory, hs: Handles, bytes: seq<byte>)
    requires Shows(m, hs, bytes) && OthersSame(m, n, Nil)
    ensures Shows(n, hs, bytes)
  {
    FlattenSame(m, n, hs);
  }

  /** Session::Send, and what async_send_message is then called with. */
  method Enqueue(pool: TranBufPool, m: Message) returns (ok: bool, buffer: ReadBuffer, entry: P.Message)
    requires pool.Valid() && Sendable(m) && (m.meta == [] ==> m.data == [])
    modifies pool
    ensures pool.Valid() && fresh(buffer)
    ensures pool.refused == old(pool.refused) + if ok then 0 else 1
    ensures ok ==> entry.bytes == Frame(m) && Holds(pool, buffer, entry) && OthersSame(old(pool.blocks), pool.blocks, Nil)
  {
    ok, buffer := S.Send(pool, m.meta, m.data);
    entry := P.Message([], 0);
    if ok {
      var bytes := buffer.ToString();
      entry := P.Message(bytes, buffer.totalBlockSize);
    }
  }

  /** Session::Send for each message. Every buffer keeps holding its frame while later ones
      are made, and they are what the protocol has in its queue. */
  method SendAll(pool: TranBufPool, ms: seq<Message>) returns (ok: bool, buffers: seq<ReadBuffer>, q: seq<P.Message>)
    requires pool.Valid() && AllSendable(ms) && forall i :: 0 <= i < |ms| ==> (ms[i].meta == [] ==> ms[i].data == [])
    modifies pool
    ensures pool.Valid() && pool.refused == old(pool.refused) + if ok then 0 else 1
    ensures ok ==> Carries(q, ms) && |buffers| == |q| && forall i :: 0 <= i < |q| ==> Holds(pool, buffers[i], q[i])
  {
    ok, buffers, q := true, [], [];
    while |q| < |ms|
      invariant ok && pool.Valid() && |q| == |buffers| <= |ms| && pool.refused == old(pool.refused)
      invariant forall i :: 0 <= i < |q| ==> q[i].bytes == Frame(ms[i])
      invariant forall i :: 0 <= i < |q| ==> fresh(buffers[i]) && Holds(pool, buffers[i], q[i])
    {
      ghost var before := pool.blocks;
      var buffer, entry;
      ok, buffer, entry := Enqueue(pool, ms[|q|]);
      if !ok { return; }
      forall i | 0 <= i < |q| ensures Holds(pool, buffers[i], q[i]) {
        StillShows(before, pool.blocks, buffers[i].bufList, q[i].bytes);
      }
      buffers, q := buffers + [buffer], q + [entry];
    }
  }

  // ---- From the senders to the application ------------------------------------------------------

  /** Connected, all threads have left, no write is under way, and there is no limit. */
  ghost predicate Quiet(s: P.State) {
    && !s.limited && s.status == P.Connected && s.flight < 0
    && forall t :: 0 <= t < |s.pcs| ==> s.pcs[t] == P.Idle
  }

  /** In every reachable state of the senders, whatever part of the wire has arrived, the
      first messages have been delivered in order with their sizes and bytes, and nothing
      else; and all of them once the senders are quiet and the wire has arrived. */
  lemma {:induction false} DeliveredInOrder(limited: bool, threads: nat, steps: seq<P.Step>, ms: seq<Message>, arrived: seq<byte>)
    requires P.Runs(P.Start(limited, threads), steps) && AllSendable(ms)
    requires Carries(P.After(P.Start(limited, threads), steps).enqueued, ms)
    requires arrived <= P.After(P.Start(limited, threads), steps).wire
    ensures Feed(Start, arrived).Running() && Feed(Start, arrived).out <= Deliveries(ms)
    ensures var s := P.After(P.Start(limited, threads), steps);
            arrived == s.wire && (Quiet(s) || s.sent == s.enqueued) ==> Feed(Start, arrived) == InHeader([], Deliveries(ms))
  {
    var s := P.After(P.Start(limited, threads), steps);
    P.SentInOrder(limited, threads, steps);
    ConcatFrames(s.enqueued, ms);
    PrefixDelivers(ms, arrived);
    P.LimitedAlways(limited, threads, steps);
    if !limited { P.QuietMeansSent(threads, steps); }
    if arrived == s.wire && s.sent == s.enqueued {
      P.InvariantAlways(limited, threads, steps);
      assert s.current.None?;
      FeedFrames(ms);
    }
  }

  /** The same for the stream that receives: what it hands to the application. */
  method Receive(rx: R.Receiver, ghost limited: bool, ghost threads: nat, ghost steps: seq<P.Step>, ghost ms: seq<Message>, arrived: seq<byte>)
    returns (ok: bool)
    requires rx.Ready() && rx.View() == Start && rx.held == R.NoItems
    requires P.Runs(P.Start(limited, threads), steps) && AllSendable(ms)
    requires Carries(P.After(P.Start(limited, threads), steps).enqueued, ms)
    requires arrived <= P.After(P.Start(limited, threads), steps).wire
    modifies rx, rx.pool
    ensures rx.pool.refused == old(rx.pool.refused) + if ok then 0 else 1
    ensures ok ==> R.ReadableAll(rx.pool.blocks, rx.held) && R.Outs(rx.pool.blocks, rx.held) <= Deliveries(ms)
    ensures var s := P.After(P.Start(limited, threads), steps);
            ok && arrived == s.wire && Quiet(s) ==>
              R.ReadableAll(rx.pool.blocks, rx.held) && R.Outs(rx.pool.blocks, rx.held) == Deliveries(ms)
  {
    DeliveredInOrder(limited, threads, steps, ms, arrived);
    ghost var out;
    ok, out := Deliver(rx, arrived);
    assert ok ==> R.Outs(rx.pool.blocks, rx.held) == out;
  }

  /** A run in which the buffers of `q` are passed to async_send_message, each once, by any
      threads in any order. */
  ghost predicate PassesIn(limited: bool, threads: nat, run: seq<P.Message> -> seq<P.Step>, q: seq<P.Message>) {
    P.Runs(P.Start(limited, threads), run(q)) && multiset(G.Sends(run(q))) == multiset(q)
  }

  function Dropped<T>(q: seq<T>, i: nat): (r: seq<T>)
    requires i < |q|
    ensures |r| == |q| - 1
  {
    q[..i] + q[i + 1..]
  }

  lemma DroppedOut<T>(q: seq<T>, i: nat)
    requires i < |q|
    ensures multiset(q) == multiset(Dropped(q, i)) + multiset{q[i]}
  {
    assert q == q[..i] + [q[i]] + q[i + 1..];
  }

  lemma CarriesDropped(q: seq<P.Message>, ms: seq<Message>, i: nat)
    requires AllSendable(ms) && Carries(q, ms) && i < |q|
    ensures AllSendable(Dropped(ms, i)) && Carries(Dropped(q, i), Dropped(ms, i))
  {
  }

  lemma CarriesOne(q: seq<P.Message>, x: P.Message, ms: seq<Message>, m: Message)
    requires AllSendable(ms) && Carries(q, ms) && Sendable(m) && x.bytes == Frame(m)
    ensures AllSendable(ms + [m]) && Carries(q + [x], ms + [m])
  {
  }

  /** One entry of `some` in `q`. */
  lemma OneEntry(some: seq<P.Message>, q: seq<P.Message>) returns (i: nat)
    requires some != [] && multiset(some) <= multiset(q)
    ensures i < |q| && q[i] == some[|some| - 1] && multiset(some[..|some| - 1]) <= multiset(Dropped(q, i))
  {
    var n := |some| - 1;
    assert some == some[..n] + [some[n]];
    assert multiset(some)[some[n]] > 0;
    assert some[n] in multiset(q) && some[n] in q;
    var k :| 0 <= k < |q| && q[k] == some[n];
    i := k;
    DroppedOut(q, i);
    assert multiset(some) == multiset(some[..n]) + multiset{some[n]};
    var a, b := multiset(some[..n]), multiset(Dropped(q, i));
    forall m ensures a[m] <= b[m] {
      assert multiset(some)[m] <= multiset(q)[m];
    }
  }

  /** Some of the entries of `q`, in another order, and the messages they carry. */
  lemma {:induction false} Reordered(some: seq<P.Message>, q: seq<P.Message>, ms: seq<Message>) returns (order: seq<Message>)
    requires AllSendable(ms) && Carries(q, ms) && multiset(some) <= multiset(q)
    ensures AllSendable(order) && Carries(some, order) && multiset(order) <= multiset(ms)
  {
    if some == [] {
      order := [];
    } else {
      hide Dropped;
      var n := |some| - 1;
      var i := OneEntry(some, q);
      CarriesDropped(q, ms, i);
      order := Reordered(some[..n], Dropped(q, i), Dropped(ms, i));
      DroppedOut(ms, i);
      CarriesOne(some[..n], some[n], order, ms[i]);
      assert some == some[..n] + [some[n]];
      order := order + [ms[i]];
    }
  }

  /** The messages in the order in which they get into the queue. */
  lemma {:induction false} QueueOrder(limited: bool, threads: nat, steps: seq<P.Step>, q: seq<P.Message>, ms: seq<Message>)
    returns (order: seq<Message>)
    requires P.Runs(P.Start(limited, threads), steps) && multiset(G.Sends(steps)) == multiset(q) && AllSendable(ms) && Carries(q, ms)
    ensures AllSendable(order) && Carries(P.After(P.Start(limited, threads), steps).enqueued, order)
    ensures multiset(order) <= multiset(ms)
    ensures G.Unbroken(steps) && Quiet(P.After(P.Start(limited, threads), steps)) ==> multiset(order) == multiset(ms)
    ensures G.Unbroken(steps) && OneAfterTheOther(threads, steps, q) ==> order <= ms
  {
    hide P.Start, P.After, P.Runs, G.Unbroken, Quiet;
    var s := P.After(P.Start(limited, threads), steps);
    G.NothingMadeUp(limited, threads, steps);
    if G.Unbroken(steps) && OneAfterTheOther(threads, steps, q) {
      order := InOneOrder(limited, threads, steps, q, ms);
    } else {
      order := Reordered(s.enqueued, q, ms);
    }
    if G.Unbroken(steps) && Quiet(s) { AllThere(limited, threads, steps, q, ms, order); }
  }

  lemma InOneOrder(limited: bool, threads: nat, steps: seq<P.Step>, q: seq<P.Message>, ms: seq<Message>)
    returns (order: seq<Message>)
    requires P.Runs(P.Start(limited, threads), steps) && AllSendable(ms) && Carries(q, ms)
    requires G.Unbroken(steps) && OneAfterTheOther(threads, steps, q)
    ensures order <= ms && AllSendable(order) && Carries(P.After(P.Start(limited, threads), steps).enqueued, order)
    ensures multiset(order) <= multiset(ms)
  {
    hide P.Start, P.After, P.Runs, G.Unbroken;
    var s := P.After(P.Start(limited, threads), steps);
    var t: nat :| t < threads && G.OnlySender(steps, t);
    G.OneSenderInOrder(limited, threads, steps, t);
    order := ms[..|s.enqueued|];
    assert ms == order + ms[|order|..];
    assert forall i :: 0 <= i < |s.enqueued| ==> s.enqueued[i] == q[i];
  }

  lemma AllThere(limited: bool, threads: nat, steps: seq<P.Step>, q: seq<P.Message>, ms: seq<Message>, order: seq<Message>)
    requires P.Runs(P.Start(limited, threads), steps) && multiset(G.Sends(steps)) == multiset(q) && |q| == |ms|
    requires G.Unbroken(steps) && Quiet(P.After(P.Start(limited, threads), steps))
    requires multiset(order) <= multiset(ms) && |order| == |P.After(P.Start(limited, threads), steps).enqueued|
    ensures multiset(order) == multiset(ms)
  {
    hide P.Start, P.After, P.Runs, G.Unbroken, G.Sends;
    var s := P.After(P.Start(limited, threads), steps);
    G.AllEnqueued(limited, threads, steps);
    G.InsideIdle(s.pcs);
    assert |multiset(s.enqueued)| == |multiset(q)|;
    SameSize(order, ms);
  }

  lemma SameSize(a: seq<Message>, b: seq<Message>)
    requires multiset(a) <= multiset(b) && |a| == |b|
    ensures multiset(a) == multiset(b)
  {
    assert multiset(b) == multiset(a) + (multiset(b) - multiset(a));
    assert |multiset(b) - multiset(a)| == 0;
  }

  /** One thread passes the entries in, in their order. */
  ghost predicate OneAfterTheOther(threads: nat, steps: seq<P.Step>, q: seq<P.Message>) {
    G.Sends(steps) == q && exists t: nat :: t < threads && G.OnlySender(steps, t)
  }

  /** From one application to the other. Messages are put into buffers by Session::Send and
      passed to async_send_message; `run` is what the threads and the transport of the sender
      do with any such buffers, in whatever order, and `most` how many bytes of the wire
      arrive, in chunks of any sizes. Unless memory runs out, the receiver has given out some
      of the messages, each at most once, with their sizes and bytes, in the order in which
      they got into the queue. Once the sender is quiet, its stream unbroken, and the wire has
      arrived, these are all of them; and if one thread sends them, they are in its order. */
  method EndToEnd(pool: TranBufPool, rx: R.Receiver, ms: seq<Message>,
                  limited: bool, threads: nat, run: seq<P.Message> -> seq<P.Step>, most: nat)
    returns (ok: bool, ghost q: seq<P.Message>, ghost order: seq<Message>)
    requires pool.Valid() && AllSendable(ms) && forall i :: 0 <= i < |ms| ==> (ms[i].meta == [] ==> ms[i].data == [])
    requires rx.Ready() && rx.View() == Start && rx.held == R.NoItems && rx.pool != pool
    requires forall q :: Carries(q, ms) ==> PassesIn(limited, threads, run, q)
    modifies pool, rx, rx.pool
    ensures pool.refused + rx.pool.refused == old(pool.refused + rx.pool.refused) + if ok then 0 else 1
    ensures ok ==> Carries(q, ms) && PassesIn(limited, threads, run, q) && AllSendable(order) && multiset(order) <= multiset(ms)
    ensures ok ==> R.ReadableAll(rx.pool.blocks, rx.held) && R.Outs(rx.pool.blocks, rx.held) <= Deliveries(order)
    ensures ok && G.Unbroken(run(q)) && Quiet(P.After(P.Start(limited, threads), run(q)))
               && |P.After(P.Start(limited, threads), run(q)).wire| <= most ==>
              multiset(order) == multiset(ms) && R.Outs(rx.pool.blocks, rx.held) == Deliveries(order)
    ensures ok && G.Unbroken(run(q)) && OneAfterTheOther(threads, run(q), q) ==> order <= ms
  {
    var buffers, entries;
    ok, buffers, entries := SendAll(pool, ms);
    q, order := entries, [];
    if ok {
      assert PassesIn(limited, threads, run, entries);
      var after := P.After(P.Start(limited, threads), run(entries));
      var arrived := after.wire[..if |after.wire| < most then |after.wire| else most];
      order := QueueOrder(limited, threads, run(q), q, ms);
      ok := Receive(rx, limited, threads, run(entries), order, arrived);
    }
  }
}
