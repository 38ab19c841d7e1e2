/** Session::Send for messages that are not compressed: header, meta and data in one buffer. */
module Session {
  import opened Bytes
  import opened Framing
  import opened ReadBuffers
  import opened TranBufPool
  import opened WriteBuffers

  /** Reserves the header, appends the rest and fills the header in afterwards, when the
      sizes are known. A null meta sends a heartbeat, a header with all sizes zero. The
      buffer handed to the stream holds exactly the frame of the message, in blocks no one
      else knows. */
  method Send(pool: TranBufPool, meta: seq<byte>, data: seq<byte>) returns (ok: bool, message: ReadBuffer)
    requires pool.Valid() && Sendable(Message(meta, data)) && (meta == [] ==> data == [])
    modifies pool
    ensures pool.Valid() && fresh(message) && message.pool == pool
    ensures pool.refused == old(pool.refused) + if ok then 0 else 1
    ensures ok ==> message.Valid() && message.Contents() == Frame(Message(meta, data)) && message.readBytes == 0
    ensures ok ==> OthersSame(old(pool.blocks), pool.blocks, Nil) && Blocks(message.bufList) !! old(pool.blocks).Keys
  {
    var buffer := new WriteBuffer(pool);
    message := new ReadBuffer(pool);
    var headerPos := buffer.Reserve(HEADER_SIZE);
    if headerPos < 0 { return false, message; }
    var header;
    ok, header := AppendMessage(buffer, meta, data, headerPos, old(pool.blocks));
    if ok { Finish(buffer, header, meta + data, message, old(pool.blocks)); }
  }

  /** Meta and data behind the reserved header, and the header that describes them. */
  method AppendMessage(buffer: WriteBuffer, meta: seq<byte>, data: seq<byte>, headerPos: nat, ghost start: Memory)
    returns (ok: bool, header: Header)
    requires buffer.Valid() && Grown(start, Nil, buffer.pool.blocks, buffer.bufList) && (meta == [] ==> data == [])
    requires headerPos == 0 && buffer.writeBytes == HEADER_SIZE
    modifies buffer`bufList, buffer`totalBlockSize, buffer`totalCapacity, buffer`lastBytes, buffer`writeBytes, buffer.pool
    ensures ok ==> buffer.Valid() && Grown(start, Nil, buffer.pool.blocks, buffer.bufList)
    ensures ok ==> buffer.Contents() == old(buffer.Contents()) + (meta + data) && header == HeaderOf(Message(meta, data))
    ensures buffer.pool.Valid() && buffer.pool.refused == old(buffer.pool.refused) + if ok then 0 else 1
  {
    header := Header(MESSAGE_HEAD_MAGIC, 0, 0, 0);
    ok := true;
    if meta != [] {
      ok := AppendPart(buffer, meta, start);
      if !ok { return; }
      var metaSize := buffer.writeBytes - headerPos - HEADER_SIZE;
      ok := AppendPart(buffer, data, start);
      if !ok { return; }
      var dataSize := buffer.writeBytes - headerPos - HEADER_SIZE - metaSize;
      header := Header(MESSAGE_HEAD_MAGIC, metaSize, dataSize, metaSize + dataSize);
    }
  }

  method AppendPart(buffer: WriteBuffer, part: seq<byte>, ghost start: Memory) returns (ok: bool)
    requires buffer.Valid() && Grown(start, Nil, buffer.pool.blocks, buffer.bufList)
    modifies buffer`bufList, buffer`totalBlockSize, buffer`totalCapacity, buffer`lastBytes, buffer`writeBytes, buffer.pool
    ensures buffer.Valid() && Grown(start, Nil, buffer.pool.blocks, buffer.bufList)
    ensures ok ==> buffer.Contents() == old(buffer.Contents()) + part
    ensures buffer.pool.refused == old(buffer.pool.refused) + if ok then 0 else 1
  {
    ghost var m, hs := buffer.pool.blocks, buffer.bufList;
    ok := buffer.Append(part);
    GrownTwice(start, Nil, m, hs, buffer.pool.blocks, buffer.bufList);
  }

  /** Fills the header in and hands the blocks over. */
  method Finish(buffer: WriteBuffer, header: Header, ghost rest: seq<byte>, message: ReadBuffer, ghost start: Memory)
    requires buffer.Valid() && Grown(start, Nil, buffer.pool.blocks, buffer.bufList) && Representable(header)
    requires message.Valid() && message.pool == buffer.pool && message.bufList == Nil
    requires message.readBytes == 0 && message.lastBytes == 0
    requires |buffer.Contents()| >= HEADER_SIZE && buffer.Contents()[HEADER_SIZE..] == rest
    modifies buffer`bufList, buffer`totalBlockSize, buffer`totalCapacity, buffer`lastBytes, buffer`writeBytes, buffer.pool`blocks, message
    ensures buffer.pool.Valid() && message.Valid() && message.readBytes == 0
    ensures message.Contents() == EncodeHeader(header) + rest
    ensures OthersSame(start, buffer.pool.blocks, Nil) && Blocks(message.bufList) !! start.Keys
  {
    buffer.SetData(0, EncodeHeader(header));
    assert buffer.Contents() == EncodeHeader(header) + rest;
    UnfilledIn(buffer.bufList);
    buffer.SwapOut(message);
  }
}
