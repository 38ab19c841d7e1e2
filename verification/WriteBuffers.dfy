/** WriteBuffer: a list of pool blocks that grows at its end, written as one sequence of bytes. */
module WriteBuffers {
  import opened Bytes
  import opened TranBufPool
  import opened ReadBuffers

  // ---- Write lists ------------------------------------------------------------------

  // In the deque of a WriteBuffer, the `span` of a handle is the capacity of its block, and
  // its bytes begin at the start of the block.

  function Spans(hs: Handles): nat {
    match hs case Nil => 0 case Snoc(init, h) => Spans(init) + h.span
  }

  predicate Full(hs: Handles) {
    hs.Snoc? ==> hs.last.size == hs.last.span
  }

  /** A block owned by this buffer alone, as large as its handle says. */
  predicate OwnBlock(m: Memory, h: BufferHandle) {
    h.data in m && m[h.data].refs == 1 && h.size <= h.span == |m[h.data].data| && 0 < h.span
  }

  /** Blocks are owned alone and named once; all but the last are full. */
  predicate Owned(m: Memory, hs: Handles) {
    match hs
    case Nil => true
    case Snoc(init, h) => Owned(m, init) && Full(init) && OwnBlock(m, h) && h.data !in Blocks(init)
  }

  /** The bytes written so far. */
  function Stored(m: Memory, hs: Handles): (r: seq<byte>)
    requires Owned(m, hs)
    ensures |r| == Sizes(hs)
  {
    match hs
    case Nil => []
    case Snoc(init, h) => Stored(m, init) + m[h.data].data[..h.size]
  }

  lemma {:induction false} OwnedSame(m: Memory, n: Memory, hs: Handles)
    requires Owned(m, hs) && forall a :: a in Blocks(hs) && a in m ==> a in n && n[a] == m[a]
    ensures Owned(n, hs) && Stored(n, hs) == Stored(m, hs)
  {
    if hs.Snoc? {
      OwnedSame(m, n, hs.init);
      assert hs.last.data in Blocks(hs);
    }
  }

  lemma StoreLast(m: Memory, hs: Handles, offset: nat, bytes: seq<byte>)
    requires Owned(m, hs) && hs.Snoc? && offset + |bytes| <= hs.last.size
    ensures var n := Written(m, hs.last.data, offset, bytes);
            Owned(n, hs) && Stored(n, hs) == Splice(Stored(m, hs), Sizes(hs.init) + offset, bytes)
  {
    var n := Written(m, hs.last.data, offset, bytes);
    OwnedSame(m, n, hs.init);
    var old_, new_ := m[hs.last.data].data, n[hs.last.data].data;
    SplicePrefix(old_, offset, bytes, hs.last.size);
    SpliceRight(Stored(m, hs.init), old_[..hs.last.size], offset, bytes);
  }

  /** What is written to another block than the last one shows in front of it. */
  lemma StoreInit(m: Memory, hs: Handles, a: nat, offset: nat, bytes: seq<byte>, pos: nat)
    requires Owned(m, hs) && hs.Snoc? && a in Blocks(hs.init) && a in m && offset + |bytes| <= m[a].Capacity()
    requires pos + |bytes| <= Sizes(hs.init)
    requires var n := Written(m, a, offset, bytes);
             Owned(n, hs.init) && Stored(n, hs.init) == Splice(Stored(m, hs.init), pos, bytes)
    ensures var n := Written(m, a, offset, bytes); Owned(n, hs) && Stored(n, hs) == Splice(Stored(m, hs), pos, bytes)
  {
    var n := Written(m, a, offset, bytes);
    assert hs.last.data != a && n[hs.last.data] == m[hs.last.data];
    SpliceLeft(Stored(m, hs.init), m[hs.last.data].data[..hs.last.size], pos, bytes);
  }

  /** A copy into one block replaces that stretch of the whole. */
  lemma {:induction false} StoreSplice(m: Memory, hs: Handles, k: nat, offset: nat, bytes: seq<byte>)
    requires Owned(m, hs) && k < Count(hs) && offset + |bytes| <= At(hs, k).size
    ensures At(hs, k).data in m && offset + |bytes| <= m[At(hs, k).data].Capacity()
    ensures Sizes(Take(hs, k)) + offset + |bytes| <= Sizes(hs)
    ensures var n := Written(m, At(hs, k).data, offset, bytes);
            Owned(n, hs) && Stored(n, hs) == Splice(Stored(m, hs), Sizes(Take(hs, k)) + offset, bytes)
    ensures At(hs, k).data in Blocks(hs)
  {
    hide Stored, Written, Splice;
    if k == Count(hs) - 1 {
      StoreLast(m, hs, offset, bytes);
    } else {
      StoreSplice(m, hs.init, k, offset, bytes);
      StoreInit(m, hs, At(hs, k).data, offset, bytes, Sizes(Take(hs, k)) + offset);
    }
  }

  /** Byte `at` of the whole is `offset` bytes into handle `it`, or at the end of it. */
  predicate Place(hs: Handles, it: nat, offset: nat, at: nat) {
    && it <= Count(hs) && Sizes(Take(hs, it)) + offset == at
    && (if it < Count(hs) then offset <= At(hs, it).size else offset == 0)
  }

  lemma PlaceWithin(hs: Handles, it: nat, offset: nat, at: nat)
    requires Place(hs, it, offset, at) && at < Sizes(hs)
    ensures it < Count(hs)
  {
    if it == Count(hs) { TakeAll(hs); }
  }

  lemma {:induction false} TakeAll(hs: Handles)
    ensures Take(hs, Count(hs)) == hs
  {
  }

  lemma PlaceMoves(hs: Handles, it: nat, offset: nat, at: nat, n: nat)
    requires Place(hs, it, offset, at) && it < Count(hs) && offset + n <= At(hs, it).size
    ensures if offset + n < At(hs, it).size then Place(hs, it, offset + n, at + n) else Place(hs, it + 1, 0, at + n)
  {
    TakeNext(hs, it);
  }

  lemma StorePiece(m: Memory, hs: Handles, k: nat, offset: nat, data: seq<byte>, done: nat, n: nat, start: seq<byte>, pos: nat)
    requires Owned(m, hs) && k < Count(hs) && offset + n <= At(hs, k).size && done + n <= |data|
    requires Sizes(Take(hs, k)) + offset == pos + done && PartlySpliced(Stored(m, hs), start, pos, data, done)
    ensures At(hs, k).data in Blocks(hs) && At(hs, k).data in m && offset + n <= m[At(hs, k).data].Capacity()
    ensures var o := Written(m, At(hs, k).data, offset, data[done..done + n]);
            Owned(o, hs) && PartlySpliced(Stored(o, hs), start, pos, data, done + n)
  {
    StoreSplice(m, hs, k, offset, data[done..done + n]);
    SpliceStep(Stored(m, hs), Stored(Written(m, At(hs, k).data, offset, data[done..done + n]), hs), start, pos, data, done, n);
  }

  // ---- From one state of a buffer to a later one ------------------------------------------

  /** The fields of a buffer agree with its list. */
  predicate Agrees(hs: Handles, blockSize: nat, capacity: nat, last: nat, written: nat) {
    && written == Sizes(hs) && capacity == Spans(hs) && blockSize == capacity + OVERHEAD * Count(hs)
    && last <= (if hs.Snoc? then hs.last.size else 0)
  }

  ghost predicate OthersSame(m: Memory, n: Memory, hs: Handles) {
    forall a :: a in m && a !in Blocks(hs) ==> a in n && n[a] == m[a]
  }

  /** Blocks of other owners are untouched, none of them has become ours, and what had
      been written is still there. */
  ghost predicate Grown(m: Memory, hs: Handles, n: Memory, hs': Handles) {
    && OthersSame(m, n, hs)
    && (forall a :: a in m && a in Blocks(hs') ==> a in Blocks(hs))
    && Owned(m, hs) && Owned(n, hs') && Stored(m, hs) <= Stored(n, hs')
  }

  lemma OthersTwice(m: Memory, n: Memory, o: Memory, hs: Handles)
    requires OthersSame(m, n, hs) && OthersSame(n, o, hs)
    ensures OthersSame(m, o, hs)
  {
  }

  lemma GrownTwice(m: Memory, hs: Handles, n: Memory, hs': Handles, o: Memory, hs'': Handles)
    requires Grown(m, hs, n, hs') && Grown(n, hs', o, hs'')
    ensures Grown(m, hs, o, hs'')
  {
  }

  lemma GrownSelf(m: Memory, hs: Handles)
    requires Owned(m, hs)
    ensures Grown(m, hs, m, hs)
  {
  }

  /** A fresh, still empty block behind full ones. */
  lemma GrownExtend(m: Memory, n: Memory, hs: Handles, h: BufferHandle)
    requires Owned(m, hs) && Full(hs) && h.data !in m && h.size == 0
    requires h.data in n && n == m[h.data := n[h.data]] && n[h.data].refs == 1 && 0 < h.span == n[h.data].Capacity()
    ensures Grown(m, hs, n, Snoc(hs, h)) && Stored(n, Snoc(hs, h)) == Stored(m, hs)
  {
    OwnedSame(m, n, hs);
    OwnedInMemory(m, hs);
  }

  lemma {:induction false} OwnedInMemory(m: Memory, hs: Handles)
    requires Owned(m, hs)
    ensures Blocks(hs) <= m.Keys
  {
    if hs.Snoc? { OwnedInMemory(m, hs.init); }
  }

  /** More of the last block: the whole goes on with what memory holds. */
  lemma GrownFill(m: Memory, hs: Handles, size: nat)
    requires Owned(m, hs) && hs.Snoc? && hs.last.size <= size <= hs.last.span
    ensures Grown(m, hs, m, Snoc(hs.init, hs.last.(size := size)))
  {
  }

  /** Less of the last block, but not less than there was. */
  lemma GrownTrim(m: Memory, hs: Handles, n: Memory, hs': Handles, count: nat)
    requires Grown(m, hs, n, hs') && hs'.Snoc? && count <= hs'.last.size && Sizes(hs) + count <= Sizes(hs')
    ensures Grown(m, hs, n, Snoc(hs'.init, hs'.last.(size := hs'.last.size - count)))
  {
  }

  function Smaller(m: nat, n: nat): nat {
    if m < n then m else n
  }

  class WriteBuffer {
    const pool: TranBufPool
    var bufList: Handles
    var totalBlockSize: nat
    var totalCapacity: nat
    var lastBytes: nat
    var writeBytes: nat
    var baseBlockFactor: nat

    ghost predicate Valid()
      reads this, pool
    {
      pool.Valid() && Owned(pool.blocks, bufList) && Agrees(bufList, totalBlockSize, totalCapacity, lastBytes, writeBytes)
    }

    ghost function Contents(): seq<byte>
      requires Valid()
      reads this, pool
    {
      Stored(pool.blocks, bufList)
    }

    constructor (pool: TranBufPool)
      requires pool.Valid()
      ensures this.pool == pool && Valid() && bufList == Nil && writeBytes == 0 && baseBlockFactor == 4
    {
      this.pool := pool;
      bufList, totalBlockSize, totalCapacity, lastBytes, writeBytes, baseBlockFactor := Nil, 0, 0, 0, 0, 4;
    }

    /** A further block, larger than those before it up to 32 KB. */
    method Extend() returns (ok: bool)
      requires Valid() && Full(bufList)
      modifies this`bufList, this`totalBlockSize, this`totalCapacity, this`lastBytes, pool
      ensures Valid() && Contents() == old(Contents())
      ensures Grown(old(pool.blocks), old(bufList), pool.blocks, bufList)
      ensures ok ==> bufList.Snoc? && bufList.init == old(bufList) && bufList.last.size == 0 && !Full(bufList)
      ensures ok ==> bufList.last.span + OVERHEAD == TRAN_BUF_BLOCK_BASE_SIZE * Pow2(Smaller(TRAN_BUF_BLOCK_MAX_FACTOR, old(Count(bufList)) + baseBlockFactor))
      ensures pool.refused == old(pool.refused) + if ok then 0 else 1
    {
      var factor := Count(bufList) + baseBlockFactor;
      if TRAN_BUF_BLOCK_MAX_FACTOR < factor { factor := TRAN_BUF_BLOCK_MAX_FACTOR; }
      ghost var before := pool.blocks;
      GrownSelf(before, bufList);
      var p;
      ok, p := pool.Malloc(factor);
      if ok {
        var h := BufferHandle(p, 0, pool.blocks[p].Capacity());
        GrownExtend(before, pool.blocks, bufList, h);
        totalBlockSize := totalBlockSize + pool.blocks[p].BlockSize();
        totalCapacity := totalCapacity + h.span;
        bufList := Snoc(bufList, h);
        lastBytes := 0;
      }
    }

    /** The free rest of the last block, or all of a new one. Its bytes are whatever memory holds. */
    method Next() returns (ok: bool, data: nat, offset: nat, size: nat)
      requires Valid()
      modifies this`bufList, this`totalBlockSize, this`totalCapacity, this`lastBytes, this`writeBytes, pool
      ensures Valid() && Grown(old(pool.blocks), old(bufList), pool.blocks, bufList)
      ensures !ok ==> Contents() == old(Contents()) && lastBytes == 0
      ensures pool.refused == old(pool.refused) + if ok then 0 else 1
      ensures ok ==> 0 < size == lastBytes && writeBytes == old(writeBytes) + size
      ensures ok ==> bufList.Snoc? && bufList.last == BufferHandle(data, offset + size, offset + size)
    {
      hide Grown, OthersSame, Stored;
      ok := true;
      GrownSelf(pool.blocks, bufList);
      if bufList == Nil || bufList.last.size == bufList.last.span {
        ok := Extend();
        if !ok { lastBytes := 0; return false, 0, 0, 0; }
      }
      ghost var hs := bufList;
      var last := bufList.last;
      data, offset, size := last.data, last.size, last.span - last.size;
      GrownFill(pool.blocks, hs, last.span);
      bufList := Snoc(bufList.init, last.(size := last.span));
      lastBytes := size;
      writeBytes := writeBytes + size;
      GrownTwice(old(pool.blocks), old(bufList), pool.blocks, hs, pool.blocks, bufList);
    }

    /** Gives back the last `count` bytes of the last Next. */
    method BackUp(count: nat)
      requires Valid() && 0 < lastBytes && count <= lastBytes
      modifies this`bufList, this`lastBytes, this`writeBytes
      ensures Valid() && lastBytes == 0 && writeBytes == old(writeBytes) - count
      ensures Contents() == old(Contents())[..writeBytes]
      ensures old(bufList).Snoc? && bufList == Snoc(old(bufList).init, old(bufList).last.(size := old(bufList).last.size - count))
    {
      var last := bufList.last;
      bufList := Snoc(bufList.init, last.(size := last.size - count));
      lastBytes := 0;
      writeBytes := writeBytes - count;
    }

    /** Makes room for `count` bytes and returns where it begins, or -1 if memory runs out. */
    method Reserve(count0: nat) returns (head: int)
      requires Valid() && 0 < count0
      modifies this`bufList, this`totalBlockSize, this`totalCapacity, this`lastBytes, this`writeBytes, pool
      ensures Valid() && Grown(old(pool.blocks), old(bufList), pool.blocks, bufList)
      ensures head == -1 || (head == old(writeBytes) && writeBytes == head + count0)
      ensures pool.refused == old(pool.refused) + if head >= 0 then 0 else 1
    {
      head := writeBytes;
      var count := count0;
      GrownSelf(pool.blocks, bufList);
      while count > 0
        invariant Valid() && Grown(old(pool.blocks), old(bufList), pool.blocks, bufList)
        invariant 0 <= count <= count0 && writeBytes == head + (count0 - count)
        invariant pool.refused == old(pool.refused)
      {
        ghost var m, hs := pool.blocks, bufList;
        var ok, data, offset, size := Next();
        GrownTwice(old(pool.blocks), old(bufList), m, hs, pool.blocks, bufList);
        if !ok { return -1; }
        if size > count {
          GrownTrim(old(pool.blocks), old(bufList), pool.blocks, bufList, size - count);
          BackUp(size - count);
          count := 0;
        } else {
          count := count - size;
        }
      }
    }

    /** memcpy into one block, as a further piece of a replacement. */
    method CopyPiece(k: nat, offset: nat, data: seq<byte>, done: nat, n: nat, ghost start: seq<byte>, ghost pos: nat)
      requires Valid() && k < Count(bufList) && offset + n <= At(bufList, k).size && done + n <= |data|
      requires Sizes(Take(bufList, k)) + offset == pos + done && PartlySpliced(Contents(), start, pos, data, done)
      modifies pool`blocks
      ensures Valid() && PartlySpliced(Contents(), start, pos, data, done + n)
      ensures OthersSame(old(pool.blocks), pool.blocks, bufList)
    {
      StorePiece(pool.blocks, bufList, k, offset, data, done, n, start, pos);
      pool.Write(At(bufList, k).data, offset, data[done..done + n]);
    }

    /** As much as one block takes, and where to go on. */
    method SetPiece(it: nat, offset: nat, data: seq<byte>, done: nat, ghost start: seq<byte>, ghost pos: nat)
      returns (curIt: nat, curOffset: nat, done': nat)
      requires Valid() && done < |data| && pos + |data| <= writeBytes
      requires Place(bufList, it, offset, pos + done) && PartlySpliced(Contents(), start, pos, data, done)
      modifies pool`blocks
      ensures Valid() && done <= done' <= |data| && Place(bufList, curIt, curOffset, pos + done')
      ensures curIt <= Count(bufList) && (done < done' || it < curIt)
      ensures PartlySpliced(Contents(), start, pos, data, done') && OthersSame(old(pool.blocks), pool.blocks, bufList)
    {
      PlaceWithin(bufList, it, offset, pos + done);
      var curSize := At(bufList, it).size - offset;
      var n := if curSize > |data| - done then |data| - done else curSize;
      CopyPiece(it, offset, data, done, n, start, pos);
      PlaceMoves(bufList, it, offset, pos + done, n);
      done' := done + n;
      if curSize > n {
        curIt, curOffset := it, offset + n;
      } else {
        curIt, curOffset := it + 1, 0;
      }
    }

    /** Overwrites the bytes from `pos` on, across block borders, and nothing else. */
    method SetData(pos0: nat, data: seq<byte>)
      requires Valid() && 0 < |data| && pos0 + |data| <= writeBytes
      modifies pool`blocks
      ensures Valid() && Contents() == Splice(old(Contents()), pos0, data)
      ensures OthersSame(old(pool.blocks), pool.blocks, bufList)
    {
      var curIt, curOffset := FindPosition(pos0);
      ghost var start := Contents();
      var done := 0;
      SpliceStart(start, pos0, data);
      while done < |data|
        invariant Valid() && OthersSame(old(pool.blocks), pool.blocks, bufList)
        invariant 0 <= done <= |data| && 0 <= curIt && 0 <= curOffset && Place(bufList, curIt, curOffset, pos0 + done)
        invariant PartlySpliced(Contents(), start, pos0, data, done)
        decreases |data| - done, Count(bufList) - curIt
      {
        ghost var m := pool.blocks;
        curIt, curOffset, done := SetPiece(curIt, curOffset, data, done, start, pos0);
        OthersTwice(old(pool.blocks), m, pool.blocks, bufList);
      }
      SpliceEnd(Contents(), start, pos0, data);
    }

    /** The handle and the offset in it where byte `pos` is, or the end of a handle before it. */
    method FindPosition(pos0: nat) returns (curIt: nat, curOffset: nat)
      requires Valid() && pos0 < writeBytes
      ensures curIt < Count(bufList) && (curOffset > 0 ==> curOffset < At(bufList, curIt).size)
      ensures Sizes(Take(bufList, curIt)) + curOffset == pos0
    {
      curIt, curOffset := 0, 0;
      var pos := pos0;
      while pos > 0
        invariant 0 <= pos && curIt < Count(bufList) && (curOffset > 0 ==> pos == 0 && curOffset < At(bufList, curIt).size)
        invariant Sizes(Take(bufList, curIt)) + curOffset + pos == pos0
        decreases pos, Count(bufList) - curIt
      {
        TakeNext(bufList, curIt);
        var curSize := At(bufList, curIt).size - curOffset;
        if curSize > pos {
          curOffset := curOffset + pos;
          pos := 0;
        } else {
          pos := pos - curSize;
          curIt := curIt + 1;
          curOffset := 0;
        }
      }
    }

    method Append(data: seq<byte>) returns (ok: bool)
      requires Valid()
      modifies this`bufList, this`totalBlockSize, this`totalCapacity, this`lastBytes, this`writeBytes, pool
      ensures Valid() && Grown(old(pool.blocks), old(bufList), pool.blocks, bufList)
      ensures ok ==> Contents() == old(Contents()) + data
      ensures pool.refused == old(pool.refused) + if ok then 0 else 1
    {
      GrownSelf(pool.blocks, bufList);
      if |data| == 0 { return true; }
      ghost var start := Contents();
      var head := Reserve(|data|);
      if head < 0 { return false; }
      ghost var m := pool.blocks;
      SetData(head, data);
      assert Contents() == start + data;
      ok := true;
    }

    /** Hands every filled block over to `target` and forgets them all. A block changes
        owner without being copied: its count goes up by one and down by one. */
    method SwapOut(target: ReadBuffer)
      requires Valid() && target.Valid() && target.pool == pool && target.readBytes == 0 && target.lastBytes == 0
      requires Blocks(target.bufList) !! Blocks(bufList)
      modifies this`bufList, this`totalBlockSize, this`totalCapacity, this`lastBytes, this`writeBytes, target, pool`blocks
      ensures Valid() && bufList == Nil && writeBytes == 0
      ensures target.Valid() && target.readBytes == 0 && target.Contents() == old(target.Contents()) + old(Contents())
      ensures target.totalBlockSize <= old(target.totalBlockSize) + old(totalBlockSize)
      ensures pool.blocks == old(pool.blocks) - Unfilled(old(bufList))
      ensures Blocks(target.bufList) <= old(Blocks(target.bufList)) + old(Blocks(bufList))
    {
      hide Handed, Owned, Stored;
      ghost var m, c0, b0, t0 := pool.blocks, target.Contents(), Blocks(target.bufList), target.totalBlockSize;
      var k := 0;
      TakeNone(bufList);
      HandedNone(target);
      while k < Count(bufList)
        invariant bufList == old(bufList) && Owned(m, bufList) && 0 <= k <= Count(bufList)
        invariant Handed(target, m, c0, b0, t0, Take(bufList, k))
      {
        OwnedAt(m, bufList, k);
        SwapOne(target, At(bufList, k), m, c0, b0, t0, Take(bufList, k));
        k := k + 1;
      }
      HandedAll(target, m, c0, b0, t0, bufList);
      bufList, totalBlockSize, totalCapacity, lastBytes, writeBytes := Nil, 0, 0, 0, 0;
    }

    /** The blocks of `done` have gone over to `target`, which held `c0` before. */
    ghost predicate Handed(target: ReadBuffer, m: Memory, c0: seq<byte>, b0: set<nat>, t0: nat, done: Handles)
      reads this, target, target.pool, pool
    {
      && pool.Valid() && target.Valid() && target.pool == pool && target.readBytes == 0 && target.lastBytes == 0
      && Owned(m, done) && target.Contents() == c0 + Stored(m, done)
      && pool.blocks == m - Unfilled(done)
      && Blocks(target.bufList) <= b0 + Blocks(done)
      && target.totalBlockSize <= t0 + Spans(done) + OVERHEAD * Count(done)
    }

    lemma HandedNone(target: ReadBuffer)
      requires pool.Valid() && target.Valid() && target.pool == pool && target.readBytes == 0 && target.lastBytes == 0
      ensures Handed(target, pool.blocks, target.Contents(), Blocks(target.bufList), target.totalBlockSize, Nil)
    {
      assert pool.blocks - Unfilled(Nil) == pool.blocks;
    }

    lemma HandedAll(target: ReadBuffer, m: Memory, c0: seq<byte>, b0: set<nat>, t0: nat, done: Handles)
      requires Handed(target, m, c0, b0, t0, done)
      ensures target.Valid() && target.readBytes == 0 && target.Contents() == c0 + Stored(m, done)
      ensures pool.Valid() && pool.blocks == m - Unfilled(done) && Blocks(target.bufList) <= b0 + Blocks(done)
      ensures target.totalBlockSize <= t0 + Spans(done) + OVERHEAD * Count(done) && Owned(pool.blocks, Nil)
    {
    }

    method SwapOne(target: ReadBuffer, h: BufferHandle, ghost m: Memory, ghost c0: seq<byte>, ghost b0: set<nat>, ghost t0: nat,
                   ghost done: Handles)
      requires Handed(target, m, c0, b0, t0, done) && Owned(m, Snoc(done, h)) && h.data !in b0
      modifies target, pool`blocks
      ensures Handed(target, m, c0, b0, t0, Snoc(done, h))
    {
      ghost var held := pool.blocks;
      UnfilledIn(done);
      assert h.data in held && held[h.data] == m[h.data];
      if h.size > 0 { target.AppendHandle(h.(span := 0)); }
      assert target.Contents() == c0 + Stored(m, done) + m[h.data].data[..h.size];
      ghost var before := pool.blocks;
      pool.Free(h.data);
      FlattenSame(before, pool.blocks, target.bufList);
      assert pool.blocks == if h.size > 0 then held else held - {h.data};
      UnfilledNext(m, done, h);
    }
  }

  /** Blocks nothing was written to: at most the last one. */
  function Unfilled(hs: Handles): set<nat> {
    match hs case Nil => {} case Snoc(init, h) => Unfilled(init) + if h.size == 0 then {h.data} else {}
  }

  lemma UnfilledNext(m: Memory, hs: Handles, h: BufferHandle)
    ensures m - Unfilled(Snoc(hs, h)) == if h.size == 0 then (m - Unfilled(hs)) - {h.data} else m - Unfilled(hs)
  {
  }

  lemma {:induction false} UnfilledIn(hs: Handles)
    ensures Unfilled(hs) <= Blocks(hs)
  {
    if hs.Snoc? { UnfilledIn(hs.init); }
  }

  lemma {:induction false} TakeNone(hs: Handles)
    ensures Take(hs, 0) == Nil
  {
    if hs.Snoc? { TakeNone(hs.init); }
  }

  lemma {:induction false} OwnedAt(m: Memory, hs: Handles, k: nat)
    requires Owned(m, hs) && k < Count(hs)
    ensures OwnBlock(m, At(hs, k)) && At(hs, k).data in Blocks(hs) && At(hs, k).data !in Blocks(Take(hs, k))
    ensures Owned(m, Take(hs, k)) && Owned(m, Take(hs, k + 1)) && Take(hs, k + 1) == Snoc(Take(hs, k), At(hs, k))
    ensures Stored(m, Take(hs, k + 1)) == Stored(m, Take(hs, k)) + m[At(hs, k).data].data[..At(hs, k).size]
  {
    if k < Count(hs) - 1 { OwnedAt(m, hs.init, k); }
  }
}
