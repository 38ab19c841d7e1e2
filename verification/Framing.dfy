/**
 The wire format of a message, and the parser it defines when bytes arrive one at a time.
 The receiver works on chunks; this is what it has to agree with.
 */
module Framing {
  import opened Bytes
  import opened Options

  // ---- The header ---------------------------------------------------------------------

  const MESSAGE_HEAD_MAGIC := 322122
  const HEADER_SIZE := 24

  /** MessageHeader: int32, int32, int64, int64, packed without gaps. */
  datatype Header = Header(magic: nat, metaSize: int, dataSize: int, messageSize: int)

  predicate Representable(h: Header) {
    h.magic < Pow256(4) && Fits(h.metaSize, 4) && Fits(h.dataSize, 8) && Fits(h.messageSize, 8)
  }

  function EncodeHeader(h: Header): (r: seq<byte>)
    requires Representable(h)
    ensures |r| == HEADER_SIZE
  {
    LittleEndian(h.magic, 4) + LittleEndian(FromSigned(h.metaSize, 4), 4)
    + LittleEndian(FromSigned(h.dataSize, 8), 8) + LittleEndian(FromSigned(h.messageSize, 8), 8)
  }

  function DecodeHeader(bs: seq<byte>): Header
    requires |bs| == HEADER_SIZE
  {
    Header(Value(bs[..4]), ToSigned(Value(bs[4..8]), 4), ToSigned(Value(bs[8..16]), 8), ToSigned(Value(bs[16..24]), 8))
  }

  lemma HeaderRoundTrip(h: Header)
    requires Representable(h)
    ensures DecodeHeader(EncodeHeader(h)) == h
  {
    var a, b := LittleEndian(h.magic, 4), LittleEndian(FromSigned(h.metaSize, 4), 4);
    var c, d := LittleEndian(FromSigned(h.dataSize, 8), 8), LittleEndian(FromSigned(h.messageSize, 8), 8);
    var e := a + b + c + d;
    assert e[..4] == a && e[4..8] == b && e[8..16] == c && e[16..24] == d;
    ValueOfLittleEndian(h.magic, 4);
    SignedRoundTrip(h.metaSize, 4);
    SignedRoundTrip(h.dataSize, 8);
    SignedRoundTrip(h.messageSize, 8);
  }

  // ---- Messages on the wire -------------------------------------------------------------

  /** What is sent: the raw meta structure and the data. A heartbeat has neither. */
  datatype Message = Message(meta: seq<byte>, data: seq<byte>)

  function HeaderOf(m: Message): Header {
    Header(MESSAGE_HEAD_MAGIC, |m.meta|, |m.data|, |m.meta| + |m.data|)
  }

  /** The sizes fit the header fields. */
  predicate Sendable(m: Message) {
    Representable(HeaderOf(m))
  }

  function Frame(m: Message): seq<byte>
    requires Sendable(m)
  {
    EncodeHeader(HeaderOf(m)) + m.meta + m.data
  }

  predicate AllSendable(ms: seq<Message>) {
    forall i :: 0 <= i < |ms| ==> Sendable(ms[i])
  }

  function Frames(ms: seq<Message>): seq<byte>
    requires AllSendable(ms)
  {
    if ms == [] then [] else Frames(ms[..|ms| - 1]) + Frame(ms[|ms| - 1])
  }

  // ---- Parsing byte by byte ---------------------------------------------------------------

  /** What is delivered: the sizes of the header and the bytes behind it. */
  datatype Received = Received(metaSize: int, dataSize: int, bytes: seq<byte>)

  /** `Broken`: a wrong magic number closed the stream. `Undefined`: a header announced a
      negative size, which the original does not guard against. */
  datatype Parser =
    | InHeader(header: seq<byte>, out: seq<Received>)
    | InBody(h: Header, body: seq<byte>, out: seq<Received>)
    | Broken
    | Undefined
  {
    predicate Running() { InHeader? || InBody? }
  }

  predicate WellFormed(p: Parser) {
    match p
    case InHeader(header, _) => |header| < HEADER_SIZE
    case InBody(h, body, _) => |body| < h.messageSize
    case _ => true
  }

  function Complete(h: Header, body: seq<byte>, out: seq<Received>): Parser {
    if |body| >= h.messageSize then InHeader([], out + [Received(h.metaSize, h.dataSize, body)])
    else InBody(h, body, out)
  }

  function Identified(h: Header, out: seq<Received>): Parser {
    if h.magic != MESSAGE_HEAD_MAGIC then Broken
    else if h.messageSize < 0 then Undefined
    else Complete(h, [], out)
  }

  function HeaderSoFar(header: seq<byte>, out: seq<Received>): Parser
    requires |header| <= HEADER_SIZE
  {
    if |header| == HEADER_SIZE then Identified(DecodeHeader(header), out) else InHeader(header, out)
  }

  function FeedByte(p: Parser, b: byte): (r: Parser)
    requires WellFormed(p)
    ensures WellFormed(r)
  {
    match p
    case InHeader(header, out) => HeaderSoFar(header + [b], out)
    case InBody(h, body, out) => Complete(h, body + [b], out)
    case _ => p
  }

  function Feed(p: Parser, bs: seq<byte>): (r: Parser)
    requires WellFormed(p)
    ensures WellFormed(r)
  {
    if bs == [] then p else FeedByte(Feed(p, bs[..|bs| - 1]), bs[|bs| - 1])
  }

  lemma {:induction false} FeedSnoc(p: Parser, bs: seq<byte>, b: byte)
    requires WellFormed(p)
    ensures Feed(p, bs + [b]) == FeedByte(Feed(p, bs), b)
  {
    assert (bs + [b])[..|bs|] == bs;
  }

  /** Chunking does not matter. */
  lemma {:induction false} FeedAppend(p: Parser, a: seq<byte>, b: seq<byte>)
    requires WellFormed(p)
    ensures Feed(p, a + b) == Feed(Feed(p, a), b)
  {
    if b == [] {
      assert a + b == a;
    } else {
      var b' := b[..|b| - 1];
      FeedAppend(p, a, b');
      assert a + b == (a + b') + [b[|b| - 1]];
      FeedSnoc(p, a + b', b[|b| - 1]);
    }
  }

  lemma {:induction false} FeedStuck(p: Parser, bs: seq<byte>)
    requires !p.Running()
    ensures Feed(p, bs) == p
  {
    if bs != [] { FeedStuck(p, bs[..|bs| - 1]); }
  }

  /** Some bytes of a header, all at once. */
  lemma {:induction false} FeedHeader(header: seq<byte>, out: seq<Received>, bs: seq<byte>)
    requires bs != [] && |header| + |bs| <= HEADER_SIZE
    ensures Feed(InHeader(header, out), bs) == HeaderSoFar(header + bs, out)
  {
    var p, b', last := InHeader(header, out), bs[..|bs| - 1], bs[|bs| - 1];
    assert header + bs == header + b' + [last];
    if b' == [] {
      assert header + b' == header;
    } else {
      FeedHeader(header, out, b');
    }
    assert Feed(p, b') == InHeader(header + b', out);
    assert Feed(p, bs) == FeedByte(Feed(p, b'), last);
  }

  /** Some bytes of a body, all at once. */
  lemma {:induction false} FeedBody(h: Header, body: seq<byte>, out: seq<Received>, bs: seq<byte>)
    requires bs != [] && |body| + |bs| <= h.messageSize
    ensures Feed(InBody(h, body, out), bs) == Complete(h, body + bs, out)
  {
    var p, b', last := InBody(h, body, out), bs[..|bs| - 1], bs[|bs| - 1];
    assert body + bs == body + b' + [last];
    if b' == [] {
      assert body + b' == body;
    } else {
      FeedBody(h, body, out, b');
    }
    assert Feed(p, b') == InBody(h, body + b', out);
    assert Feed(p, bs) == FeedByte(Feed(p, b'), last);
  }

  function Delivery(m: Message): Received {
    Received(|m.meta|, |m.data|, m.meta + m.data)
  }

  lemma {:induction false} FeedWholeHeader(out: seq<Received>, h: Header)
    requires Representable(h) && h.magic == MESSAGE_HEAD_MAGIC && 0 <= h.messageSize
    ensures Feed(InHeader([], out), EncodeHeader(h)) == Complete(h, [], out)
  {
    var header := EncodeHeader(h);
    HeaderRoundTrip(h);
    FeedHeader([], out, header);
    assert [] + header == header;
  }

  /** A frame yields its message. */
  lemma {:induction false} FeedFrame(out: seq<Received>, m: Message)
    requires Sendable(m)
    ensures Feed(InHeader([], out), Frame(m)) == InHeader([], out + [Delivery(m)])
  {
    var h, start := HeaderOf(m), InHeader([], out);
    var header, body := EncodeHeader(h), m.meta + m.data;
    FeedWholeHeader(out, h);
    assert Frame(m) == header + body;
    FeedAppend(start, header, body);
    if body != [] {
      FeedBody(h, [], out, body);
      assert [] + body == body;
    }
  }

  /** The messages that should come out. */
  function Deliveries(ms: seq<Message>): (r: seq<Received>)
    ensures |r| == |ms|
  {
    seq(|ms|, i requires 0 <= i < |ms| => Delivery(ms[i]))
  }

  lemma DeliveriesMore(ms: seq<Message>)
    requires ms != []
    ensures Deliveries(ms) == Deliveries(ms[..|ms| - 1]) + [Delivery(ms[|ms| - 1])]
  {
  }

  const Start := InHeader([], [])

  lemma {:induction false} FeedFrames(ms: seq<Message>)
    requires AllSendable(ms)
    ensures Feed(Start, Frames(ms)) == InHeader([], Deliveries(ms))
  {
    if ms != [] {
      var ms', m := ms[..|ms| - 1], ms[|ms| - 1];
      var before, frame := Frames(ms'), Frame(m);
      FeedFrames(ms');
      FeedAppend(Start, before, frame);
      FeedFrame(Deliveries(ms'), m);
      DeliveriesMore(ms);
    }
  }

  /** Deliveries are never taken back. */
  lemma {:induction false} FeedOnlyAdds(p: Parser, bs: seq<byte>)
    requires WellFormed(p) && Feed(p, bs).Running()
    ensures p.Running()
    ensures p.out <= Feed(p, bs).out
  {
    if bs != [] {
      var b' := bs[..|bs| - 1];
      assert Feed(p, b').Running();
      FeedOnlyAdds(p, b');
    }
  }

  // ---- Negative sizes ---------------------------------------------------------------------

  /** Where the loop over a chunk stands, in front of a header: position, bytes left, and
      messages given out. */
  datatype Place = Place(data: int, size: int, given: nat)

  /** One turn of the loop over a whole header: nothing if it returns. A negative size takes
      away from what the header has added. */
  function PastHeader(p: Place, messageSize: int): Option<Place> {
    var data, size := p.data + HEADER_SIZE, p.size - HEADER_SIZE;
    if (size == 0 && messageSize > 0) || size < messageSize then None
    else Some(Place(data + messageSize, Int32(size - messageSize), p.given + 1))
  }

  /** The loop gets on if and only if the size is greater than -24. With -24 it stands still. */
  lemma GetsOn(p: Place, messageSize: int)
    requires HEADER_SIZE <= p.size < INT_LIMIT && messageSize < 0
    ensures PastHeader(p, messageSize).Some?
    ensures PastHeader(p, messageSize).value.data > p.data <==> messageSize > -HEADER_SIZE
    ensures PastHeader(p, messageSize).value == p.(given := p.given + 1) <==> messageSize == -HEADER_SIZE
  {
  }

  /** With any other size it gets past header and message if and only if both are there. */
  lemma GetsPast(p: Place, messageSize: nat)
    requires HEADER_SIZE <= p.size < INT_LIMIT
    ensures PastHeader(p, messageSize) == if HEADER_SIZE + messageSize <= p.size
                                          then Some(Place(p.data + HEADER_SIZE + messageSize, p.size - HEADER_SIZE - messageSize, p.given + 1))
                                          else None
  {
  }

  /** `n` turns over the headers of a chunk; nothing if the loop has returned or left the chunk. */
  function Turns(chunk: seq<byte>, p: Place, n: nat): Option<Place> {
    if n == 0 then Some(p)
    else
      var q := Turns(chunk, p, n - 1);
      if q.None? || q.value.data < 0 || q.value.data + HEADER_SIZE > |chunk| || q.value.size < HEADER_SIZE then None
      else
        var h := DecodeHeader(chunk[q.value.data..q.value.data + HEADER_SIZE]);
        if h.magic != MESSAGE_HEAD_MAGIC then None else PastHeader(q.value, h.messageSize)
  }

  /** It announces -24 bytes, and its sizes add up. */
  function StuckHeader(): (h: Header)
    ensures Representable(h) && h.metaSize + h.dataSize == h.messageSize == -HEADER_SIZE && h.magic == MESSAGE_HEAD_MAGIC
  {
    assert 256 == Pow256(1) && Pow256(4) > MESSAGE_HEAD_MAGIC;
    Header(MESSAGE_HEAD_MAGIC, -HEADER_SIZE, 0, -HEADER_SIZE)
  }

  /** Such a header is read again and again, and each time a message is given out. */
  lemma {:induction false} StandsStill(n: nat)
    ensures Turns(EncodeHeader(StuckHeader()), Place(0, HEADER_SIZE, 0), n) == Some(Place(0, HEADER_SIZE, n))
  {
    hide EncodeHeader, DecodeHeader, StuckHeader, Representable;
    if n > 0 {
      var chunk := EncodeHeader(StuckHeader());
      StandsStill(n - 1);
      HeaderRoundTrip(StuckHeader());
      assert chunk[0..HEADER_SIZE] == chunk;
    }
  }

  // ---- The wire format in bytes -------------------------------------------------------------

  /** The magic number is 322122, that is 4A EA 04 00; behind it come the size of the meta
      part in four bytes, that of the data in eight, and their sum in eight, each with its
      lowest byte first; then meta and data. */
  lemma FrameBytes(m: Message)
    requires Sendable(m)
    ensures var f := Frame(m);
            && |f| == 24 + |m.meta| + |m.data| && f[24..] == m.meta + m.data
            && f[..4] == [0x4A, 0xEA, 0x04, 0x00]
            && f[4] == |m.meta| % 256 && f[5] == |m.meta| / 256 % 256 && f[6] == |m.meta| / 65536 % 256 && f[7] == |m.meta| / 16777216 % 256
            && f[8] == |m.data| % 256 && f[9] == |m.data| / 256 % 256
            && f[16] == (|m.meta| + |m.data|) % 256 && f[17] == (|m.meta| + |m.data|) / 256 % 256
            && Value(f[8..16]) == |m.data| && Value(f[16..24]) == |m.meta| + |m.data|
  {
    var f, h := Frame(m), HeaderOf(m);
    var a, b := LittleEndian(h.magic, 4), LittleEndian(|m.meta|, 4);
    var c, d := LittleEndian(|m.data|, 8), LittleEndian(|m.meta| + |m.data|, 8);
    hide LittleEndian;
    assert f == a + b + c + d + m.meta + m.data;
    FrameParts(a, b, c, d, m.meta, m.data);
    LittleEndianBytes(h.magic, 4);
    assert a == [0x4A, 0xEA, 0x04, 0x00];
    LittleEndianBytes(|m.meta|, 4);
    LittleEndianBytes(|m.data|, 8);
    LittleEndianBytes(|m.meta| + |m.data|, 8);
    ValueOfLittleEndian(|m.data|, 8);
    ValueOfLittleEndian(|m.meta| + |m.data|, 8);
  }

  lemma FrameParts(a: seq<byte>, b: seq<byte>, c: seq<byte>, d: seq<byte>, meta: seq<byte>, data: seq<byte>)
    requires |a| == |b| == 4 && |c| == |d| == 8
    ensures var f := a + b + c + d + meta + data;
            && f[..4] == a && f[4..8] == b && f[8..16] == c && f[16..24] == d && f[24..] == meta + data
            && f[4] == b[0] && f[5] == b[1] && f[6] == b[2] && f[7] == b[3]
            && f[8] == c[0] && f[9] == c[1] && f[16] == d[0] && f[17] == d[1]
  {
  }
}
