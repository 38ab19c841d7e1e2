/** ReadBuffer: a list of stretches of pool blocks, read as one sequence of bytes. */
module ReadBuffers {
  import opened Bytes
  import opened TranBufPool

  /** Where a read cursor stands: before handle `it`, `pos` bytes into it. */
  predicate Cursor(hs: Handles, it: nat, pos: nat, readBytes: int) {
    && it <= Count(hs)
    && (if it < Count(hs) then pos < At(hs, it).size else pos == 0)
    && readBytes == Sizes(Take(hs, it)) + pos
  }

  /** How much the last Next can have handed out. */
  function Behind(hs: Handles, it: nat): nat {
    if 0 < it <= Count(hs) then At(hs, it - 1).size else 0
  }

  predicate NonEmpty(hs: Handles) {
    match hs case Nil => true case Snoc(init, h) => NonEmpty(init) && 0 < h.size
  }

  lemma {:induction false} EmptyPrefix(hs: Handles, it: nat)
    requires it <= Count(hs) && NonEmpty(hs) && Sizes(Take(hs, it)) == 0
    ensures it == 0
  {
    if it < Count(hs) { EmptyPrefix(hs.init, it); }
  }

  lemma {:induction false} NonEmptyAt(hs: Handles, it: nat)
    requires it < Count(hs) && NonEmpty(hs)
    ensures 0 < At(hs, it).size
  {
    if it < Count(hs) - 1 { NonEmptyAt(hs.init, it); }
  }

  /** What is left of handle `it` from `pos` on. */
  lemma PartAt(m: Memory, hs: Handles, it: nat, pos: nat)
    requires AllReadable(m, hs) && it < Count(hs) && pos < At(hs, it).size
    ensures var h := At(hs, it);
            var part := BufferHandle(h.data, h.size - pos, h.span + pos);
            var start := Sizes(Take(hs, it));
            && Readable(m, part) && start + h.size <= Sizes(hs)
            && HandleBytes(m, part) == Flatten(m, hs)[start + pos..start + h.size]
  {
    HandleAt(m, hs, it);
    var h, whole, start := At(hs, it), Flatten(m, hs), Sizes(Take(hs, it));
    assert whole[start + pos..start + h.size] == whole[start..start + h.size][pos..];
  }

  /** Moving on to the next handle. */
  lemma CursorNext(m: Memory, hs: Handles, it: nat, pos: nat, read: int)
    requires AllReadable(m, hs) && NonEmpty(hs) && Cursor(hs, it, pos, read) && it < Count(hs)
    ensures var h := At(hs, it);
            var part := BufferHandle(h.data, h.size - pos, h.span + pos);
            && Readable(m, part) && 0 <= read && read + part.size <= Sizes(hs)
            && HandleBytes(m, part) == Flatten(m, hs)[read..read + part.size]
            && Cursor(hs, it + 1, 0, read + part.size) && part.size <= Behind(hs, it + 1)
  {
    PartAt(m, hs, it, pos);
    TakeNext(hs, it);
    if it + 1 < Count(hs) { NonEmptyAt(hs, it + 1); }
  }

  class ReadBuffer {
    const pool: TranBufPool
    var bufList: Handles
    var totalBlockSize: nat
    var totalBytes: nat
    var curIt: nat
    var curPos: nat
    var lastBytes: nat
    var readBytes: int

    ghost predicate Valid()
      reads this, pool
    {
      && AllReadable(pool.blocks, bufList) && NonEmpty(bufList) && totalBytes == Sizes(bufList)
      && Cursor(bufList, curIt, curPos, readBytes)
      && (lastBytes == 0 || (curPos == 0 && lastBytes <= Behind(bufList, curIt)))
    }

    ghost function Contents(): seq<byte>
      requires Valid()
      reads this, pool
    {
      Flatten(pool.blocks, bufList)
    }

    constructor (pool: TranBufPool)
      ensures this.pool == pool && bufList == Nil && totalBlockSize == 0
      ensures Valid() && readBytes == 0 && lastBytes == 0
    {
      this.pool := pool;
      bufList, totalBlockSize, totalBytes, curIt, curPos, lastBytes, readBytes := Nil, 0, 0, 0, 0, 0, 0;
      new;
      assert Count(bufList) == 0 && Take(bufList, 0) == Nil && Sizes(bufList) == 0;
    }

    /** Adds a stretch of a block and a reference to the block. Only before any reading. */
    method AppendHandle(h: BufferHandle)
      requires Valid() && pool.Valid() && readBytes == 0 && lastBytes == 0
      requires 0 < h.size && Readable(pool.blocks, h)
      modifies this, pool`blocks
      ensures Valid() && pool.Valid() && readBytes == 0 && lastBytes == 0
      ensures bufList == Snoc(old(bufList), h) && Contents() == old(Contents()) + old(HandleBytes(pool.blocks, h))
      ensures totalBlockSize == old(totalBlockSize) + old(pool.blocks)[h.data].BlockSize()
      ensures pool.blocks == old(pool.blocks)[h.data := old(pool.blocks)[h.data].(refs := old(pool.blocks)[h.data].refs + 1)]
    {
      ghost var before := pool.blocks;
      pool.AddRef(h.data);
      FlattenSame(before, pool.blocks, bufList);
      EmptyPrefix(bufList, curIt);
      bufList := Snoc(bufList, h);
      totalBlockSize := totalBlockSize + pool.blocks[h.data].BlockSize();
      totalBytes := totalBytes + h.size;
      curIt := 0;
      NonEmptyAt(bufList, 0);
    }

    method ToString() returns (str: seq<byte>)
      requires Valid()
      ensures str == Contents()
    {
      str := [];
      var it := 0;
      TakeReadable(pool.blocks, bufList, 0);
      while it < Count(bufList)
        invariant 0 <= it <= Count(bufList)
        invariant AllReadable(pool.blocks, Take(bufList, it)) && str == Flatten(pool.blocks, Take(bufList, it))
      {
        HandleAt(pool.blocks, bufList, it);
        TakeNext(bufList, it);
        str := str + HandleBytes(pool.blocks, At(bufList, it));
        it := it + 1;
      }
    }

    /** The rest of the current handle, as a stretch of its block; false at the end. The
        stretch holds the bytes of the whole from the old position to the new one. */
    method Next() returns (ok: bool, part: BufferHandle)
      requires Valid()
      modifies this`curIt, this`curPos, this`lastBytes, this`readBytes
      ensures Valid() && Contents() == old(Contents()) && 0 <= old(readBytes) <= readBytes <= |Contents()|
      ensures ok <==> old(readBytes) < |Contents()|
      ensures !ok ==> lastBytes == 0 && readBytes == old(readBytes)
      ensures ok ==> && Readable(pool.blocks, part) && 0 < part.size == lastBytes == readBytes - old(readBytes)
                     && HandleBytes(pool.blocks, part) == Contents()[old(readBytes)..readBytes]
    {
      CursorBounds();
      if curIt < Count(bufList) {
        part := Rest();
        ok := true;
      } else {
        lastBytes := 0;
        return false, BufferHandle(0, 0, 0);
      }
    }

    method Rest() returns (part: BufferHandle)
      requires Valid() && curIt < Count(bufList)
      modifies this`curIt, this`curPos, this`lastBytes, this`readBytes
      ensures Valid() && 0 <= old(readBytes) < readBytes <= |Contents()|
      ensures Readable(pool.blocks, part) && part.size == lastBytes == readBytes - old(readBytes)
      ensures HandleBytes(pool.blocks, part) == Contents()[old(readBytes)..readBytes]
    {
      var h := At(bufList, curIt);
      part := BufferHandle(h.data, h.size - curPos, h.span + curPos);
      CursorNext(pool.blocks, bufList, curIt, curPos, readBytes);
      curIt := curIt + 1;
      curPos := 0;
      lastBytes := part.size;
      readBytes := readBytes + lastBytes;
    }

    /** Returns the last `count` bytes of the last Next. */
    method BackUp(count: nat)
      requires Valid() && 0 < lastBytes && count <= lastBytes
      modifies this`curIt, this`curPos, this`lastBytes, this`readBytes
      ensures Valid() && Contents() == old(Contents()) && lastBytes == 0
      ensures readBytes == old(readBytes) - count
    {
      TakeNext(bufList, curIt - 1);
      if count > 0 {
        curIt := curIt - 1;
        curPos := At(bufList, curIt).size - count;
      }
      lastBytes := 0;
      readBytes := readBytes - count;
    }

    /** Moves on by `count` bytes, or to the end; true exactly if that many remained. */
    method Skip(count0: nat) returns (ok: bool)
      requires Valid()
      modifies this`curIt, this`curPos, this`lastBytes, this`readBytes
      ensures Valid() && Contents() == old(Contents()) && lastBytes == 0
      ensures ok <==> old(readBytes) + count0 <= |Contents()|
      ensures readBytes == if ok then old(readBytes) + count0 else |Contents()|
    {
      var count := count0;
      var more := true;
      CursorBounds();
      while count > 0 && more
        invariant Valid() && Contents() == old(Contents()) && 0 <= count <= count0
        invariant 0 <= readBytes <= |Contents()| && readBytes == old(readBytes) + (count0 - count)
        invariant !more ==> count > 0 && readBytes == |Contents()|
        decreases more, count
      {
        var part;
        more, part := Next();
        if more {
          var size := part.size;
          if size > count {
            BackUp(size - count);
            size := count;
          }
          count := count - size;
        }
      }
      lastBytes := 0;
      ok := count == 0;
    }

    lemma CursorBounds()
      requires Valid()
      ensures 0 <= readBytes <= |Contents()|
      ensures curIt < Count(bufList) <==> readBytes < |Contents()|
    {
      if curIt < Count(bufList) { TakeNext(bufList, curIt); }
    }
  }

  lemma {:induction false} TakeReadable(m: Memory, hs: Handles, k: nat)
    requires AllReadable(m, hs) && k <= Count(hs)
    ensures AllReadable(m, Take(hs, k))
  {
    if k < Count(hs) { TakeReadable(m, hs.init, k); }
  }
}
