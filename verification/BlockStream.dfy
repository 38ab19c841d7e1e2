/**
 LZ4OutputStream and LZ4InputStream: zero-copy streams that pass bytes on in compressed
 blocks. The coded streams below them write and read a size and that many raw bytes; they
 appear here as the list of the raw byte strings.
 */
module BlockStream {
  import opened Bytes
  import opened Options
  import opened Lz4Format
  import Lz4Greedy
  import Lz4Encoder
  import Lz4Decoder

  const BLOCKSIZE := 65536

  ghost predicate Encodes(b: Block, raw: seq<byte>, part: seq<byte>) {
    Expandable(b.sequences) && EndConditions(b) && raw == Serialize(b) && part == Meaning(b) && b == Lz4Greedy.Chosen(part)
  }

  /** `raw` is the block of the encoder that stands for `part`, and passes the check of the input stream. */
  ghost predicate Faithful(raw: seq<byte>, part: seq<byte>) {
    0 < |part| <= BLOCKSIZE && |raw| <= 2 * BLOCKSIZE && exists b :: Encodes(b, raw, part)
  }

  ghost predicate FaithfulAt(raws: seq<seq<byte>>, parts: seq<seq<byte>>, i: int) {
    0 <= i < |parts| && i < |raws| ==> Faithful(raws[i], parts[i])
  }

  ghost predicate AllFaithful(raws: seq<seq<byte>>, parts: seq<seq<byte>>) {
    |raws| == |parts| && forall i :: FaithfulAt(raws, parts, i)
  }

  function Joined(parts: seq<seq<byte>>): seq<byte> {
    if parts == [] then [] else Joined(parts[..|parts| - 1]) + parts[|parts| - 1]
  }

  lemma {:induction false} JoinedAppend(parts: seq<seq<byte>>, part: seq<byte>)
    ensures Joined(parts + [part]) == Joined(parts) + part
  {
    assert (parts + [part])[..|parts|] == parts;
  }

  /** Where part `k` begins in the whole. */
  function Before(parts: seq<seq<byte>>, k: nat): nat
    requires k <= |parts|
  {
    if k == 0 then 0 else Before(parts, k - 1) + |parts[k - 1]|
  }

  predicate PartAt(whole: seq<byte>, parts: seq<seq<byte>>, k: nat)
    requires k < |parts|
  {
    var start := Before(parts, k);
    start + |parts[k]| <= |whole| && whole[start..start + |parts[k]|] == parts[k]
  }

  ghost predicate Joins(whole: seq<byte>, parts: seq<seq<byte>>) {
    |whole| == Before(parts, |parts|) && forall k :: 0 <= k < |parts| ==> PartAt(whole, parts, k)
  }

  lemma {:induction false} BeforeSame(a: seq<seq<byte>>, b: seq<seq<byte>>, k: nat)
    requires k <= |a| && a <= b
    ensures Before(a, k) == Before(b, k)
  {
    if k > 0 { BeforeSame(a, b, k - 1); }
  }

  lemma {:induction false} JoinedJoins(parts: seq<seq<byte>>)
    ensures Joins(Joined(parts), parts)
  {
    if parts != [] {
      var init, last, n := parts[..|parts| - 1], parts[|parts| - 1], |parts| - 1;
      JoinedJoins(init);
      BeforeSame(init, parts, n);
      var w := Joined(init);
      forall k | 0 <= k < |parts| ensures PartAt(w + last, parts, k) {
        if k < n {
          assert PartAt(w, init, k);
          BeforeSame(init, parts, k);
        }
      }
    }
  }

  lemma {:induction false} BeforeGrows(raws: seq<seq<byte>>, parts: seq<seq<byte>>, k: nat, n: nat)
    requires AllFaithful(raws, parts) && k <= n <= |parts|
    ensures Before(parts, k) <= Before(parts, n) && (k < n ==> Before(parts, k) < Before(parts, n))
  {
    if k < n {
      BeforeGrows(raws, parts, k, n - 1);
      assert FaithfulAt(raws, parts, n - 1);
    }
  }

  /** RawCompress into a buffer of MaxCompressedLength bytes. */
  method RawCompress(source: seq<byte>) returns (raw: seq<byte>)
    requires 0 < |source| <= BLOCKSIZE
    ensures Faithful(raw, source)
  {
    var compressed := new byte[CompressBound(|source|)];
    var size;
    ghost var b;
    size, b := Lz4Encoder.Compress(source, compressed);
    raw := compressed[..size];
    assert compressed[..][..size] == raw;
    assert Encodes(b, raw, source);
  }

  // ---- Writing -------------------------------------------------------------------------------

  class LZ4OutputStream {
    var inputBuffer: array?<byte>
    var sub: seq<seq<byte>>
    var backedUp: nat
    var byteCount: nat
    ghost var parts: seq<seq<byte>>

    /** What is kept of the buffer. */
    ghost function Buffered(): seq<byte>
      requires inputBuffer != null ==> inputBuffer.Length == BLOCKSIZE
      requires backedUp <= BLOCKSIZE
      reads this, inputBuffer
    {
      if inputBuffer == null then [] else inputBuffer[..BLOCKSIZE - backedUp]
    }

    ghost predicate Valid()
      reads this, inputBuffer
    {
      && AllFaithful(sub, parts) && backedUp <= BLOCKSIZE
      && (inputBuffer != null ==> inputBuffer.Length == BLOCKSIZE)
      && (inputBuffer == null ==> backedUp == 0)
      && byteCount == |Joined(parts)| + |Buffered()|
    }

    /** The bytes handed in and not backed up: in blocks written, and in the buffer. */
    ghost function Kept(): seq<byte>
      requires Valid()
      reads this, inputBuffer
    {
      Joined(parts) + Buffered()
    }

    constructor ()
      ensures Valid() && Kept() == [] && inputBuffer == null && sub == []
    {
      inputBuffer, sub, backedUp, byteCount, parts := null, [], 0, 0, [];
    }

    /** Room for at least one more byte: what was backed up, or a new buffer. Whatever is in
        it counts as kept until it is overwritten or backed up. */
    method Next() returns (data: array<byte>, offset: nat, size: nat)
      requires Valid()
      modifies this
      ensures Valid() && 0 < size && offset + size == BLOCKSIZE && inputBuffer == data && backedUp == 0
      ensures old(inputBuffer) == inputBuffer || fresh(inputBuffer)
      ensures size == if old(backedUp) > 0 then old(backedUp) else BLOCKSIZE
      ensures |Kept()| == |old(Kept())| + size && old(Kept()) <= Kept() && |Joined(parts)| + offset == |old(Kept())|
    {
      if backedUp > 0 {
        offset, size := BLOCKSIZE - backedUp, backedUp;
        backedUp := 0;
        byteCount := byteCount + size;
        return inputBuffer, offset, size;
      }
      if inputBuffer != null { Flush(); }
      data := new byte[BLOCKSIZE];
      inputBuffer, offset, size := data, 0, BLOCKSIZE;
      byteCount := byteCount + size;
    }

    /** Gives back the last `count` bytes of the buffer. */
    method BackUp(count: int)
      requires Valid() && (0 < count ==> inputBuffer != null && count <= BLOCKSIZE - backedUp)
      modifies this`backedUp, this`byteCount
      ensures Valid() && Kept() == old(Kept())[..|old(Kept())| - (if count <= 0 then 0 else count)]
    {
      if count <= 0 { return; }
      backedUp := backedUp + count;
      byteCount := byteCount - count;
    }

    /** What the client does with the room it was given. */
    method Fill(offset: nat, bytes: seq<byte>)
      requires Valid() && inputBuffer != null && offset + |bytes| <= BLOCKSIZE - backedUp
      modifies inputBuffer
      ensures Valid() && |Joined(parts)| + offset + |bytes| <= |old(Kept())|
      ensures Kept() == Splice(old(Kept()), |Joined(parts)| + offset, bytes)
    {
      hide Joined, Faithful, AllFaithful;
      ghost var before := Buffered();
      forall i | 0 <= i < |bytes| {
        inputBuffer[offset + i] := bytes[i];
      }
      assert Buffered() == Splice(before, offset, bytes);
      SpliceRight(Joined(parts), before, offset, bytes);
    }

    /** Writes what is kept of the buffer as one block. A buffer of which nothing is kept
        stays for the next call. */
    method Flush()
      requires Valid()
      modifies this`inputBuffer, this`sub, this`backedUp, this`parts
      ensures Valid() && Kept() == old(Kept()) == Joined(parts)
      ensures old(inputBuffer != null && backedUp < BLOCKSIZE) ==> inputBuffer == null && backedUp == 0
      ensures parts == if old(inputBuffer != null && backedUp < BLOCKSIZE) then old(parts) + [old(Buffered())] else old(parts)
      ensures old(inputBuffer != null && backedUp == BLOCKSIZE) ==> inputBuffer != null
      ensures inputBuffer == null || (inputBuffer == old(inputBuffer) && backedUp == BLOCKSIZE && sub == old(sub))
    {
      hide Joined, Faithful, AllFaithful;
      var size := BLOCKSIZE - backedUp;
      if inputBuffer == null || size == 0 { return; }
      var raw := RawCompress(inputBuffer[..size]);
      AppendPart(raw, Buffered());
      backedUp := 0;
      inputBuffer := null;
    }

    /** WriteVarint32 and WriteRaw on the coded stream. */
    method AppendPart(raw: seq<byte>, ghost part: seq<byte>)
      requires AllFaithful(sub, parts) && Faithful(raw, part)
      modifies this`sub, this`parts
      ensures AllFaithful(sub, parts) && parts == old(parts) + [part] && Joined(parts) == old(Joined(parts)) + part
    {
      JoinedAppend(parts, part);
      forall i ensures FaithfulAt(sub + [raw], parts + [part], i) {
        assert FaithfulAt(sub, parts, i);
      }
      sub, parts := sub + [raw], parts + [part];
    }
  }

  // ---- Reading --------------------------------------------------------------------------------

  /** `taken` parts have been read, and `backedUp` bytes of the last of them, which has
      `size`, were given back: this is byte `pos` of the whole. */
  ghost predicate Position(parts: seq<seq<byte>>, taken: nat, size: int, backedUp: nat, pos: int) {
    && taken <= |parts| && backedUp <= size && pos == Before(parts, taken) - backedUp
    && size == if taken == 0 then 0 else |parts[taken - 1]|
  }

  /** Going on with what was given back. */
  lemma {:induction false} PositionRegained(whole: seq<byte>, parts: seq<seq<byte>>, taken: nat, size: int, backedUp: nat, pos: int)
    requires Joins(whole, parts) && Position(parts, taken, size, backedUp, pos) && 0 < backedUp
    ensures Position(parts, taken, size, 0, pos + backedUp) && 0 <= pos < pos + backedUp <= |whole|
    ensures 0 < taken && whole[pos..pos + backedUp] == parts[taken - 1][size - backedUp..]
  {
    var part, start := parts[taken - 1], Before(parts, taken - 1);
    assert PartAt(whole, parts, taken - 1);
    assert whole[pos..pos + backedUp] == whole[start..start + |part|][size - backedUp..];
  }

  /** Going on with the next part. */
  lemma {:induction false} PositionNext(whole: seq<byte>, raws: seq<seq<byte>>, parts: seq<seq<byte>>, taken: nat, size: int, pos: int)
    requires Joins(whole, parts) && AllFaithful(raws, parts) && Position(parts, taken, size, 0, pos)
    ensures 0 <= pos <= |whole| && (taken < |parts| <==> pos < |whole|)
    ensures taken < |parts| ==>
              var n := |parts[taken]|;
              && 0 < n <= BLOCKSIZE && |raws[taken]| <= 2 * BLOCKSIZE && pos + n <= |whole|
              && Position(parts, taken + 1, n, 0, pos + n) && whole[pos..pos + n] == parts[taken]
  {
    BeforeGrows(raws, parts, taken, |parts|);
    if taken < |parts| { assert PartAt(whole, parts, taken) && FaithfulAt(raws, parts, taken); }
  }

  lemma PositionWithin(whole: seq<byte>, parts: seq<seq<byte>>, taken: nat, size: int, backedUp: nat, pos: int)
    requires Joins(whole, parts) && Position(parts, taken, size, backedUp, pos)
    ensures 0 <= pos <= |whole|
  {
    if taken > 0 { assert PartAt(whole, parts, taken - 1); }
  }

  class LZ4InputStream {
    var outputBuffer: array?<byte>
    var outputSize: int
    var sub: seq<seq<byte>>
    var taken: nat
    var backedUp: nat
    var byteCount: int
    ghost const parts: seq<seq<byte>>
    ghost const whole: seq<byte>

    /** `taken` blocks have been read; the buffer holds the last of them. */
    ghost predicate Valid()
      reads this, outputBuffer
    {
      && AllFaithful(sub, parts) && Joins(whole, parts) && Position(parts, taken, outputSize, backedUp, byteCount)
      && (outputBuffer != null ==> outputBuffer.Length == BLOCKSIZE && outputSize <= BLOCKSIZE)
      && (0 < taken ==> outputBuffer != null && outputBuffer[..outputSize] == parts[taken - 1])
    }

    constructor (sub: seq<seq<byte>>, ghost parts: seq<seq<byte>>)
      requires AllFaithful(sub, parts)
      ensures Valid() && this.parts == parts && whole == Joined(parts) && byteCount == 0 && outputBuffer == null
    {
      this.sub, this.parts, this.whole := sub, parts, Joined(parts);
      JoinedJoins(parts);
      outputBuffer, outputSize, taken, backedUp, byteCount := null, 0, 0, 0, 0;
    }

    /** The next stretch of the whole; false exactly at its end. */
    method Next() returns (ok: bool, data: array?<byte>, offset: nat, size: int)
      requires Valid()
      modifies this`outputBuffer, this`outputSize, this`taken, this`backedUp, this`byteCount, outputBuffer
      ensures Valid() && old(byteCount) <= byteCount <= |whole| && (ok <==> old(byteCount) < |whole|)
      ensures old(outputBuffer) == outputBuffer || fresh(outputBuffer)
      ensures !ok ==> byteCount == old(byteCount)
      ensures ok ==> && data == outputBuffer != null && 0 < size && offset + size <= data.Length
                     && 0 <= old(byteCount) && byteCount == old(byteCount) + size
                     && data[offset..offset + size] == whole[old(byteCount)..byteCount]
      ensures ok ==> backedUp == 0 && size <= outputSize
    {
      if backedUp > 0 {
        data, offset, size := Regain();
        return true, data, offset, size;
      }
      ok := ReadBlock();
      data, offset, size := outputBuffer, 0, outputSize;
    }

    /** Hands out again what was backed up. */
    method Regain() returns (data: array<byte>, offset: nat, size: int)
      requires Valid() && 0 < backedUp
      modifies this`backedUp, this`byteCount
      ensures Valid() && 0 <= old(byteCount) < byteCount == old(byteCount) + size <= |whole|
      ensures data == outputBuffer && offset + size <= data.Length && backedUp == 0 && size <= outputSize
      ensures data[offset..offset + size] == whole[old(byteCount)..byteCount]
    {
      PositionRegained(whole, parts, taken, outputSize, backedUp, byteCount);
      data, offset, size := outputBuffer, outputSize - backedUp, backedUp;
      backedUp := 0;
      byteCount := byteCount + size;
      assert data[offset..offset + size] == data[..outputSize][offset..];
    }

    /** Reads and decodes the next block, if there is one. */
    method ReadBlock() returns (ok: bool)
      requires Valid() && backedUp == 0
      modifies this`outputBuffer, this`outputSize, this`taken, this`byteCount, outputBuffer
      ensures Valid() && 0 <= old(byteCount) <= byteCount <= |whole| && (ok <==> old(byteCount) < |whole|)
      ensures old(outputBuffer) == outputBuffer || fresh(outputBuffer)
      ensures !ok ==> byteCount == old(byteCount)
      ensures ok ==> && outputBuffer != null && 0 < outputSize <= outputBuffer.Length && byteCount == old(byteCount) + outputSize
                     && outputBuffer[..outputSize] == whole[old(byteCount)..byteCount]
    {
      PositionNext(whole, sub, parts, taken, outputSize, byteCount);
      if taken == |sub| || |sub[taken]| > 2 * BLOCKSIZE { return false; }
      RawUncompress(sub[taken]);
      taken := taken + 1;
      byteCount := byteCount + outputSize;
      ok := true;
    }

    method RawUncompress(raw: seq<byte>)
      requires outputBuffer != null ==> outputBuffer.Length == BLOCKSIZE
      requires AllFaithful(sub, parts) && taken < |sub| && raw == sub[taken]
      modifies this`outputBuffer, this`outputSize, outputBuffer
      ensures outputBuffer != null && outputBuffer.Length == BLOCKSIZE && outputSize == |parts[taken]| <= BLOCKSIZE
      ensures old(outputBuffer) == outputBuffer || fresh(outputBuffer)
      ensures outputBuffer[..outputSize] == parts[taken]
    {
      if outputBuffer == null { outputBuffer := new byte[BLOCKSIZE]; }
      assert FaithfulAt(sub, parts, taken);
      ghost var b :| Encodes(b, raw, parts[taken]);
      outputSize := Lz4Decoder.UncompressUnknown(raw, outputBuffer, b);
    }

    /** Returns the last `count` bytes of the buffer. */
    method BackUp(count: int)
      requires Valid() && (0 < count ==> outputBuffer != null && count <= outputSize - backedUp)
      modifies this`backedUp, this`byteCount
      ensures Valid() && byteCount == old(byteCount) - (if count <= 0 then 0 else count) && 0 <= byteCount
    {
      PositionWithin(whole, parts, taken, outputSize, backedUp, byteCount);
      if count <= 0 { return; }
      backedUp := backedUp + count;
      byteCount := byteCount - count;
      PositionWithin(whole, parts, taken, outputSize, backedUp, byteCount);
    }
  }

  // ---- Through both -----------------------------------------------------------------------------

  /** What a client may call on the output stream; `Write` is a copy into the buffer it was
      given room in. */
  datatype WriteOp = NextOp | Write(at: nat, bytes: seq<byte>) | GiveBack(count: int) | FlushOp

  /** An output stream without blocks: the text so far, with gaps where room was handed out
      and not written to. If a buffer is open, all but `backedUp` of its bytes end the text. */
  datatype Plain = Plain(text: seq<Option<byte>>, open: bool, backedUp: nat) {
    function Held(): nat {
      if open && backedUp <= BLOCKSIZE then BLOCKSIZE - backedUp else 0
    }

    predicate Valid() {
      backedUp <= BLOCKSIZE && (!open ==> backedUp == 0) && Held() <= |text|
    }

    /** What has left the buffer. */
    function Flushed(): seq<Option<byte>>
      requires Valid()
    {
      text[..|text| - Held()]
    }

    predicate Allows(op: WriteOp) {
      match op
      case Write(at, bytes) => open && at + |bytes| <= Held()
      case GiveBack(count) => count <= 0 || (open && count <= Held())
      case _ => true
    }

    function Do(op: WriteOp): (p: Plain)
      requires Valid() && Allows(op)
      ensures p.Valid()
    {
      match op
      case NextOp => Plain(text + Gaps(if backedUp > 0 then backedUp else BLOCKSIZE), true, 0)
      case Write(at, bytes) => this.(text := Splice(text, |text| - Held() + at, Given(bytes)))
      case GiveBack(count) => if count <= 0 then this else Plain(text[..|text| - count], open, backedUp + count)
      case FlushOp => if Held() == 0 then this else Plain(text, false, 0)
    }
  }

  function Gaps(n: nat): seq<Option<byte>> {
    seq(n, _ => None)
  }

  function Given(bytes: seq<byte>): seq<Option<byte>> {
    seq(|bytes|, i requires 0 <= i < |bytes| => Some(bytes[i]))
  }

  /** The bytes show the text, whatever they have in its gaps. */
  predicate Shows(bytes: seq<byte>, text: seq<Option<byte>>) {
    |bytes| == |text| && forall i :: 0 <= i < |text| && text[i].Some? ==> bytes[i] == text[i].value
  }

  lemma ShowsGaps(a: seq<byte>, b: seq<byte>, text: seq<Option<byte>>, n: nat)
    requires Shows(a, text) && a <= b && |b| == |a| + n
    ensures Shows(b, text + Gaps(n))
  {
  }

  lemma ShowsSplice(a: seq<byte>, text: seq<Option<byte>>, at: nat, bytes: seq<byte>)
    requires Shows(a, text) && at + |bytes| <= |a|
    ensures Shows(Splice(a, at, bytes), Splice(text, at, Given(bytes)))
  {
  }

  lemma ShowsPrefix(a: seq<byte>, text: seq<Option<byte>>, n: nat)
    requires Shows(a, text) && n <= |a|
    ensures Shows(a[..n], text[..n])
  {
  }

  ghost predicate Mirrors(out: LZ4OutputStream, p: Plain)
    reads out, out.inputBuffer
  {
    && out.Valid() && p.Valid() && p.open == (out.inputBuffer != null) && p.backedUp == out.backedUp
    && Shows(out.Kept(), p.text)
  }

  function AfterWrites(ops: seq<WriteOp>): Option<Plain>
  {
    if ops == [] then Some(Plain([], false, 0))
    else
      var p := AfterWrites(ops[..|ops| - 1]);
      if p.Some? && p.value.Valid() && p.value.Allows(ops[|ops| - 1]) then Some(p.value.Do(ops[|ops| - 1])) else None
  }

  method Obey(out: LZ4OutputStream, op: WriteOp, ghost p: Plain)
    requires Mirrors(out, p) && p.Allows(op)
    modifies out, out.inputBuffer
    ensures Mirrors(out, p.Do(op))
    ensures out.inputBuffer == null || out.inputBuffer == old(out.inputBuffer) || fresh(out.inputBuffer)
  {
    match op {
      case NextOp => ObeyNext(out, p);
      case Write(at, bytes) => ObeyWrite(out, at, bytes, p);
      case GiveBack(count) =>
        ShowsPrefix(out.Kept(), p.text, |p.text| - if count <= 0 then 0 else count);
        out.BackUp(count);
      case FlushOp => out.Flush();
    }
  }

  method ObeyNext(out: LZ4OutputStream, ghost p: Plain)
    requires Mirrors(out, p)
    modifies out
    ensures Mirrors(out, p.Do(NextOp))
    ensures out.inputBuffer == old(out.inputBuffer) || fresh(out.inputBuffer)
  {
    ghost var kept := out.Kept();
    var buffer, offset, size := out.Next();
    ShowsGaps(kept, out.Kept(), p.text, size);
  }

  lemma WriteShows(kept: seq<byte>, p: Plain, at: nat, bytes: seq<byte>)
    requires p.Valid() && p.Allows(Write(at, bytes)) && Shows(kept, p.text)
    ensures Shows(Splice(kept, |p.text| - p.Held() + at, bytes), p.Do(Write(at, bytes)).text)
  {
    ShowsSplice(kept, p.text, |p.text| - p.Held() + at, bytes);
  }

  method ObeyWrite(out: LZ4OutputStream, at: nat, bytes: seq<byte>, ghost p: Plain)
    requires Mirrors(out, p) && p.Allows(Write(at, bytes))
    modifies out.inputBuffer
    ensures Mirrors(out, p.Do(Write(at, bytes)))
  {
    hide Shows, Splice;
    ghost var kept := out.Kept();
    BeforeBuffer(out, p);
    out.Fill(at, bytes);
    WriteShows(kept, p, at, bytes);
  }

  lemma BeforeBuffer(out: LZ4OutputStream, p: Plain)
    requires Mirrors(out, p) && p.open
    ensures |Joined(out.parts)| == |p.text| - p.Held()
  {
  }

  /** What a client may do with the input stream. */
  datatype ReadOp = Get | Return(count: nat)

  lemma Shortened(whole: seq<byte>, n: nat, stretch: seq<byte>, back: nat)
    requires n + |stretch| <= |whole| && stretch == whole[n..n + |stretch|]
    ensures whole[..n] + stretch == whole[..n + |stretch|]
    ensures back <= n ==> whole[..n][..n - back] == whole[..n - back]
  {
  }

  /** One call; `data` is what the client has got and not returned. */
  method Read(input: LZ4InputStream, op: ReadOp, data: seq<byte>) returns (more: bool, data': seq<byte>)
    requires input.Valid() && input.byteCount == |data| <= |input.whole| && data == input.whole[..|data|]
    modifies input, input.outputBuffer
    ensures input.Valid() && input.byteCount == |data'| <= |input.whole| && data' == input.whole[..|data'|]
    ensures input.outputBuffer == null || input.outputBuffer == old(input.outputBuffer) || fresh(input.outputBuffer)
    ensures op.Get? ==> |data| <= |data'| && (more <==> |data| < |input.whole|) && (more ==> |data| < |data'|)
  {
    more, data' := true, data;
    match op {
      case Get =>
        var buffer, offset, size;
        more, buffer, offset, size := input.Next();
        if more {
          Shortened(input.whole, |data|, buffer[offset..offset + size], 0);
          data' := data + buffer[offset..offset + size];
        }
      case Return(count) =>
        if input.outputBuffer != null && count <= input.outputSize - input.backedUp {
          input.BackUp(count);
          Shortened(input.whole, |data|, [], count);
          data' := data[..|data| - count];
        }
    }
  }

  /** Any calls, and then on to the end. */
  method ReadAll(input: LZ4InputStream, ops: seq<ReadOp>) returns (data: seq<byte>)
    requires input.Valid() && input.byteCount == 0
    modifies input, input.outputBuffer
    ensures data == input.whole
  {
    data := [];
    var more := true;
    var n := 0;
    while n < |ops| || more
      invariant n <= |ops| && input.Valid() && input.byteCount == |data| <= |input.whole| && data == input.whole[..|data|]
      invariant input.outputBuffer == null || input.outputBuffer == old(input.outputBuffer) || fresh(input.outputBuffer)
      invariant n == |ops| && !more ==> |data| == |input.whole|
      decreases |ops| - n, more, |input.whole| - |data|
    {
      if n < |ops| {
        more, data := Read(input, ops[n], data);
        more, n := true, n + 1;
      } else {
        more, data := Read(input, Get, data);
      }
    }
  }

  predicate Reaches(ops: seq<WriteOp>, n: nat, p: Plain) {
    n <= |ops| && AfterWrites(ops[..n]) == Some(p)
  }

  lemma ReachesAll(ops: seq<WriteOp>, p: Plain)
    requires Reaches(ops, |ops|, p)
    ensures AfterWrites(ops) == Some(p)
  {
    assert ops[..|ops|] == ops;
  }

  /** Any calls on a new output stream. */
  method WriteAll(ops: seq<WriteOp>) returns (out: LZ4OutputStream)
    requires AfterWrites(ops).Some?
    ensures Mirrors(out, AfterWrites(ops).value)
  {
    out := new LZ4OutputStream();
    ghost var p := Plain([], false, 0);
    var n := 0;
    while n < |ops|
      invariant 0 <= n <= |ops| && fresh(out) && (out.inputBuffer == null || fresh(out.inputBuffer))
      invariant Reaches(ops, n, p) && Mirrors(out, p)
    {
      PrefixAllowed(ops, n, p);
      Obey(out, ops[n], p);
      n, p := n + 1, p.Do(ops[n]);
    }
    ReachesAll(ops, p);
  }

  /** Whatever a client does with the output stream, and whatever another one does with the
      input stream, the second gets to read exactly what the first has written and flushed. */
  method RoundTrip(ops: seq<WriteOp>, calls: seq<ReadOp>) returns (restored: seq<byte>)
    requires AfterWrites(ops).Some?
    ensures AfterWrites(ops).value.Valid() && Shows(restored, AfterWrites(ops).value.Flushed())
  {
    var out := WriteAll(ops);
    var input := new LZ4InputStream(out.sub, out.parts);
    ghost var p := AfterWrites(ops).value;
    ShowsPrefix(out.Kept(), p.text, |p.text| - p.Held());
    assert Joined(out.parts) == out.Kept()[..|p.text| - p.Held()];
    restored := ReadAll(input, calls);
  }

  lemma {:induction false} PrefixAllowed(ops: seq<WriteOp>, n: nat, p: Plain)
    requires n < |ops| && AfterWrites(ops).Some? && Reaches(ops, n, p)
    ensures p.Valid() && p.Allows(ops[n]) && Reaches(ops, n + 1, p.Do(ops[n]))
  {
    assert ops[..n + 1][..n] == ops[..n];
    if n + 1 == |ops| {
      assert ops[..n + 1] == ops;
    } else {
      var shorter := ops[..|ops| - 1];
      assert shorter[..n] == ops[..n] && shorter[..n + 1] == ops[..n + 1];
      PrefixAllowed(shorter, n, p);
    }
  }
}
