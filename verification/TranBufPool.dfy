/**
 The reference-counted pool of transfer blocks. Memory is explicit: a block is named by
 its address, so two handles can name the same block and a freed block is gone.
 */
module TranBufPool {
  import opened Bytes

  const TRAN_BUF_BLOCK_BASE_SIZE := 64
  const TRAN_BUF_BLOCK_MAX_FACTOR := 9
  const OVERHEAD := 8  // two ints in front of the data: the block size and the count

  function Pow2(n: nat): (r: nat)
    ensures r > 0
  {
    if n == 0 then 1 else 2 * Pow2(n - 1)
  }

  /** From 1 KB for the factor a WriteBuffer begins with up to 32 KB. */
  lemma BlockSizes(n: nat)
    ensures TRAN_BUF_BLOCK_BASE_SIZE * Pow2(4) == 1024 && TRAN_BUF_BLOCK_BASE_SIZE * Pow2(TRAN_BUF_BLOCK_MAX_FACTOR) == 32768
    ensures TRAN_BUF_BLOCK_BASE_SIZE * Pow2(n + 1) == 2 * (TRAN_BUF_BLOCK_BASE_SIZE * Pow2(n))
  {
    assert Pow2(2) == 4 && Pow2(4) == 16 && Pow2(6) == 64 && Pow2(8) == 256;
  }

  datatype Block = Block(refs: nat, data: seq<byte>) {
    function Capacity(): nat { |data| }
    function BlockSize(): nat { |data| + OVERHEAD }
  }

  type Memory = map<nat, Block>

  ghost predicate Live(m: Memory) {
    forall a :: a in m ==> 0 < m[a].refs
  }

  /** The bytes a block starts with are whatever memory held. */
  class TranBufPool {
    var blocks: Memory
    var next: nat
    ghost var refused: nat  // how often memory has run out

    ghost predicate Valid()
      reads this
    {
      Live(blocks) && forall a :: a in blocks ==> a < next
    }

    constructor ()
      ensures Valid() && blocks == map[]
    {
      blocks, next, refused := map[], 0, 0;
    }

    /** A block of 64 << factor bytes with a count of one, or none if memory has run out. */
    method Malloc(factor: nat) returns (ok: bool, p: nat)
      requires Valid()
      modifies this
      ensures Valid()
      ensures refused == old(refused) + if ok then 0 else 1
      ensures !ok ==> blocks == old(blocks)
      ensures ok ==>
                && p !in old(blocks) && p in blocks && blocks == old(blocks)[p := blocks[p]]
                && blocks[p].refs == 1 && blocks[p].BlockSize() == TRAN_BUF_BLOCK_BASE_SIZE * Pow2(factor)
    {
      if * {
        refused := refused + 1;
        return false, 0;
      }
      p := next;
      next := next + 1;
      blocks := blocks[p := Block(1, seq(TRAN_BUF_BLOCK_BASE_SIZE * Pow2(factor) - OVERHEAD, _ => 0))];
      ok := true;
    }

    method AddRef(p: nat)
      requires Valid() && p in blocks
      modifies this`blocks
      ensures Valid() && blocks == old(blocks)[p := old(blocks)[p].(refs := old(blocks)[p].refs + 1)]
    {
      blocks := blocks[p := blocks[p].(refs := blocks[p].refs + 1)];
    }

    /** Gives up one reference; the block goes with the last one. */
    method Free(p: nat)
      requires Valid() && p in blocks
      modifies this`blocks
      ensures Valid()
      ensures blocks == if old(blocks)[p].refs == 1 then old(blocks) - {p}
                        else old(blocks)[p := old(blocks)[p].(refs := old(blocks)[p].refs - 1)]
    {
      var refs := blocks[p].refs;
      if refs == 1 {
        blocks := blocks - {p};
      } else {
        blocks := blocks[p := blocks[p].(refs := refs - 1)];
      }
    }

    /** A copy into a block: memcpy, or the transport filling a receive buffer. */
    method Write(p: nat, offset: nat, bytes: seq<byte>)
      requires Valid() && p in blocks && offset + |bytes| <= blocks[p].Capacity()
      modifies this`blocks
      ensures Valid() && blocks == Written(old(blocks), p, offset, bytes)
    {
      blocks := Written(blocks, p, offset, bytes);
    }
  }

  function Written(m: Memory, p: nat, offset: nat, bytes: seq<byte>): Memory
    requires p in m && offset + |bytes| <= m[p].Capacity()
  {
    m[p := m[p].(data := Splice(m[p].data, offset, bytes))]
  }

  // ---- Lists of handles -------------------------------------------------------------

  /** A stretch of `size` bytes of a block. `span` is the union member of the original: the
      capacity of the block in a WriteBuffer, the offset of the stretch in a ReadBuffer. */
  datatype BufferHandle = BufferHandle(data: nat, size: nat, span: nat)

  /** A deque of handles, in the order in which they were pushed back. */
  datatype Handles = Nil | Snoc(init: Handles, last: BufferHandle)

  function Count(hs: Handles): nat {
    match hs case Nil => 0 case Snoc(init, _) => Count(init) + 1
  }

  /** The sum of the sizes. */
  function Sizes(hs: Handles): nat {
    match hs case Nil => 0 case Snoc(init, h) => Sizes(init) + h.size
  }

  function Blocks(hs: Handles): set<nat> {
    match hs case Nil => {} case Snoc(init, h) => Blocks(init) + {h.data}
  }

  /** The first `k` handles. */
  function Take(hs: Handles, k: nat): (r: Handles)
    requires k <= Count(hs)
    ensures Count(r) == k
  {
    match hs
    case Nil => Nil
    case Snoc(init, _) => if k == Count(hs) then hs else Take(init, k)
  }

  function At(hs: Handles, k: nat): BufferHandle
    requires k < Count(hs)
  {
    match hs
    case Snoc(init, h) => if k == Count(init) then h else At(init, k)
  }

  lemma {:induction false} TakeNext(hs: Handles, k: nat)
    requires k < Count(hs)
    ensures Take(hs, k + 1) == Snoc(Take(hs, k), At(hs, k))
    ensures Sizes(Take(hs, k)) + At(hs, k).size <= Sizes(hs)
  {
    if k < Count(hs) - 1 { TakeNext(hs.init, k); }
  }

  predicate Readable(m: Memory, h: BufferHandle) {
    h.data in m && h.span + h.size <= |m[h.data].data|
  }

  function HandleBytes(m: Memory, h: BufferHandle): (r: seq<byte>)
    requires Readable(m, h)
    ensures |r| == h.size
  {
    m[h.data].data[h.span..h.span + h.size]
  }

  predicate AllReadable(m: Memory, hs: Handles) {
    match hs case Nil => true case Snoc(init, h) => AllReadable(m, init) && Readable(m, h)
  }

  /** The bytes of a list of handles, one after the other. */
  function Flatten(m: Memory, hs: Handles): (r: seq<byte>)
    requires AllReadable(m, hs)
    ensures |r| == Sizes(hs)
  {
    match hs case Nil => [] case Snoc(init, h) => Flatten(m, init) + HandleBytes(m, h)
  }

  /** Memories that agree on the blocks of a list give it the same bytes. */
  lemma {:induction false} FlattenSame(m: Memory, n: Memory, hs: Handles)
    requires AllReadable(m, hs)
    requires forall a :: a in m && a in Blocks(hs) ==> a in n && n[a].data == m[a].data
    ensures AllReadable(n, hs) && Flatten(n, hs) == Flatten(m, hs)
  {
    if hs.Snoc? {
      assert hs.last.data in Blocks(hs);
      FlattenSame(m, n, hs.init);
    }
  }

  /** Handle `k` is the stretch of the whole that begins where its predecessors end. */
  lemma {:induction false} HandleAt(m: Memory, hs: Handles, k: nat)
    requires AllReadable(m, hs) && k < Count(hs)
    ensures Readable(m, At(hs, k))
    ensures Sizes(Take(hs, k)) + At(hs, k).size <= Sizes(hs)
    ensures Flatten(m, hs)[Sizes(Take(hs, k))..Sizes(Take(hs, k)) + At(hs, k).size] == HandleBytes(m, At(hs, k))
  {
    if k < Count(hs) - 1 {
      HandleAt(m, hs.init, k);
    }
  }
}
