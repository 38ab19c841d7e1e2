/**
 The receiving half of a message stream: chunks written by the transport into pool blocks
 are cut into messages that go on naming stretches of those blocks.
 */
module Receiver {
  import opened Bytes
  import opened Framing
  import opened TranBufPool

  // ---- Messages as lists of handles -------------------------------------------------------

  /** A message split off: the deque of its ReadBuffer and the sizes of its header. */
  datatype Item = Item(message: Handles, metaSize: int, dataSize: int)

  datatype Items = NoItems | More(init: Items, last: Item)

  function Concat(a: Items, b: Items): Items {
    match b case NoItems => a case More(init, i) => More(Concat(a, init), i)
  }

  predicate ReadableAll(m: Memory, items: Items) {
    match items case NoItems => true case More(init, i) => ReadableAll(m, init) && AllReadable(m, i.message)
  }

  /** What the application sees of the messages. */
  function Outs(m: Memory, items: Items): seq<Received>
    requires ReadableAll(m, items)
  {
    match items
    case NoItems => []
    case More(init, i) => Outs(m, init) + [Received(i.metaSize, i.dataSize, Flatten(m, i.message))]
  }

  function CountAll(items: Items): nat {
    match items case NoItems => 0 case More(init, _) => CountAll(init) + 1
  }

  function ItemAt(items: Items, k: nat): Item
    requires k < CountAll(items)
  {
    match items case More(init, i) => if k == CountAll(init) then i else ItemAt(init, k)
  }

  function Without(items: Items, k: nat): Items
    requires k < CountAll(items)
  {
    match items case More(init, i) => if k == CountAll(init) then init else More(Without(init, k), i)
  }

  // ---- Owners of blocks --------------------------------------------------------------------

  /** One reference for each handle. */
  function Named(hs: Handles): multiset<nat> {
    match hs case Nil => multiset{} case Snoc(init, h) => Named(init) + multiset{h.data}
  }

  function NamedAll(items: Items): multiset<nat> {
    match items case NoItems => multiset{} case More(init, i) => NamedAll(init) + Named(i.message)
  }

  /** The stream itself holds its current block, if it has one; -1 stands for the null pointer. */
  function Holding(buf: int): multiset<nat> {
    if buf < 0 then multiset{} else multiset{buf}
  }

  ghost predicate Counted(m: Memory, mine: set<nat>, owners: multiset<nat>, a: nat) {
    (a in owners <==> a in mine && a in m) && (a in owners ==> m[a].refs == owners[a])
  }

  /** Of the blocks allocated for this stream, `mine`, those with an owner are still there,
      and no others; their counts are the numbers of their owners. */
  ghost predicate Exact(m: Memory, mine: set<nat>, owners: multiset<nat>) {
    forall a :: Counted(m, mine, owners, a)
  }

  ghost predicate Untouched(m: Memory, n: Memory, mine: set<nat>, a: nat) {
    a in m && a !in mine ==> a in n && n[a] == m[a]
  }

  /** Blocks of others. */
  ghost predicate Elsewhere(m: Memory, n: Memory, mine: set<nat>) {
    forall a :: Untouched(m, n, mine, a)
  }

  lemma ElsewhereNow(m: Memory, mine: set<nat>)
    ensures Elsewhere(m, m, mine)
  {
    forall a ensures Untouched(m, m, mine, a) {}
  }

  lemma ElsewhereTwice(m: Memory, n: Memory, o: Memory, mine: set<nat>)
    requires Elsewhere(m, n, mine) && Elsewhere(n, o, mine)
    ensures Elsewhere(m, o, mine)
  {
    forall a ensures Untouched(m, o, mine, a) {
      assert Untouched(m, n, mine, a) && Untouched(n, o, mine, a);
    }
  }

  ghost predicate AgreeAt(m: Memory, n: Memory, owners: multiset<nat>, buf: int, end: nat, a: nat) {
    a in owners && a in m ==>
      && a in n && |n[a].data| == |m[a].data|
      && if a == buf then end <= |m[a].data| && n[a].data[..end] == m[a].data[..end] else n[a].data == m[a].data
  }

  /** The bytes of owned blocks are the same, except from `end` on in `buf`. */
  ghost predicate Agree(m: Memory, n: Memory, owners: multiset<nat>, buf: int, end: nat) {
    forall a :: AgreeAt(m, n, owners, buf, end, a)
  }

  // ---- Stretches behind the free part --------------------------------------------------------

  /** No stretch reaches into block `buf` from `end` on. */
  predicate Behind(hs: Handles, buf: int, end: nat) {
    match hs
    case Nil => true
    case Snoc(init, h) => Behind(init, buf, end) && (h.data == buf ==> h.span + h.size <= end)
  }

  predicate BehindAll(items: Items, buf: int, end: nat) {
    match items case NoItems => true case More(init, i) => BehindAll(init, buf, end) && Behind(i.message, buf, end)
  }

  lemma {:induction false} BehindLater(hs: Handles, buf: int, end: nat, end': nat)
    requires Behind(hs, buf, end) && end <= end'
    ensures Behind(hs, buf, end')
  {
    if hs.Snoc? { BehindLater(hs.init, buf, end, end'); }
  }

  lemma {:induction false} BehindAllLater(items: Items, buf: int, end: nat, end': nat)
    requires BehindAll(items, buf, end) && end <= end'
    ensures BehindAll(items, buf, end')
  {
    if items.More? {
      BehindAllLater(items.init, buf, end, end');
      BehindLater(items.last.message, buf, end, end');
    }
  }

  lemma {:induction false} BehindItem(items: Items, k: nat, buf: int, end: nat)
    requires BehindAll(items, buf, end) && k < CountAll(items)
    ensures Behind(ItemAt(items, k).message, buf, end)
  {
    if k < CountAll(items) - 1 { BehindItem(items.init, k, buf, end); }
  }

  lemma {:induction false} BehindHandle(hs: Handles, j: nat, buf: int, end: nat)
    requires Behind(hs, buf, end) && j < Count(hs)
    ensures At(hs, j).data == buf ==> At(hs, j).span + At(hs, j).size <= end
  {
    if j < Count(hs) - 1 { BehindHandle(hs.init, j, buf, end); }
  }

  lemma {:induction false} WithoutNamed(items: Items, k: nat)
    requires k < CountAll(items)
    ensures NamedAll(items) == NamedAll(Without(items, k)) + Named(ItemAt(items, k).message)
  {
    if k < CountAll(items) - 1 { WithoutNamed(items.init, k); }
  }

  lemma {:induction false} OutsCount(m: Memory, items: Items)
    requires ReadableAll(m, items)
    ensures |Outs(m, items)| == CountAll(items)
  {
    if items.More? { OutsCount(m, items.init); }
  }

  lemma {:induction false} WithoutOuts(m: Memory, items: Items, k: nat, buf: int, end: nat)
    requires k < CountAll(items) && ReadableAll(m, items) && BehindAll(items, buf, end)
    ensures ReadableAll(m, Without(items, k)) && BehindAll(Without(items, k), buf, end)
    ensures |Outs(m, items)| == CountAll(items)
    ensures Outs(m, Without(items, k)) == Outs(m, items)[..k] + Outs(m, items)[k + 1..]
  {
    OutsCount(m, items.init);
    if k < CountAll(items) - 1 { WithoutOuts(m, items.init, k, buf, end); }
  }

  /** A block nobody names yet is behind anything. */
  lemma {:induction false} BehindNew(hs: Handles, p: int)
    requires p < 0 || p !in Named(hs)
    ensures Behind(hs, p, 0)
  {
    if hs.Snoc? { BehindNew(hs.init, p); }
  }

  lemma {:induction false} BehindAllNew(items: Items, p: int)
    requires p < 0 || p !in NamedAll(items)
    ensures BehindAll(items, p, 0)
  {
    if items.More? {
      BehindAllNew(items.init, p);
      BehindNew(items.last.message, p);
    }
  }

  lemma {:induction false} FlattenAgree(m: Memory, n: Memory, owners: multiset<nat>, buf: int, end: nat, hs: Handles)
    requires Agree(m, n, owners, buf, end) && Named(hs) <= owners && AllReadable(m, hs) && Behind(hs, buf, end)
    ensures AllReadable(n, hs) && Flatten(n, hs) == Flatten(m, hs)
  {
    if hs.Snoc? {
      FlattenAgree(m, n, owners, buf, end, hs.init);
      var h := hs.last;
      assert h.data in Named(hs) && h.data in owners && AgreeAt(m, n, owners, buf, end, h.data);
      if h.data == buf {
        assert HandleBytes(n, h) == n[h.data].data[..end][h.span..h.span + h.size];
      }
    }
  }

  lemma {:induction false} OutsAgree(m: Memory, n: Memory, owners: multiset<nat>, buf: int, end: nat, items: Items)
    requires Agree(m, n, owners, buf, end) && NamedAll(items) <= owners && ReadableAll(m, items) && BehindAll(items, buf, end)
    ensures ReadableAll(n, items) && Outs(n, items) == Outs(m, items)
  {
    if items.More? {
      OutsAgree(m, n, owners, buf, end, items.init);
      FlattenAgree(m, n, owners, buf, end, items.last.message);
    }
  }

  // ---- Everything the stream keeps in memory ----------------------------------------------------

  /** `partial` is the message being received, `held` what the application holds, `split`
      what was split off since. None of it reaches into the free part of `buf`. */
  datatype Store = Store(m: Memory, mine: set<nat>, buf: int, end: nat, partial: Handles, held: Items, split: Items)

  function Owners(s: Store): multiset<nat> {
    Named(s.partial) + NamedAll(s.held) + NamedAll(s.split) + Holding(s.buf)
  }

  /** Every message can be read, and none reaches into the free part. */
  ghost predicate Clear(s: Store) {
    && AllReadable(s.m, s.partial) && ReadableAll(s.m, s.held) && ReadableAll(s.m, s.split)
    && Behind(s.partial, s.buf, s.end) && BehindAll(s.held, s.buf, s.end) && BehindAll(s.split, s.buf, s.end)
  }

  ghost predicate Balanced(s: Store) {
    forall a :: Counted(s.m, s.mine, Owners(s), a)
  }

  ghost predicate Safe(s: Store) {
    Clear(s) && Balanced(s)
  }

  lemma BufferMine(s: Store)
    requires Balanced(s) && 0 <= s.buf
    ensures s.buf in s.mine && s.buf in s.m
  {
    assert Counted(s.m, s.mine, Owners(s), s.buf);
  }

  lemma BalancedSame(s: Store, t: Store)
    requires Balanced(s) && t.m == s.m && t.mine == s.mine && Owners(t) == Owners(s)
    ensures Balanced(t)
  {
    forall a ensures Counted(t.m, t.mine, Owners(t), a) {
      assert Counted(s.m, s.mine, Owners(s), a);
    }
  }

  /** The same messages with the same bytes in another memory. */
  ghost predicate SameBytes(s: Store, t: Store)
    requires Clear(s) && Clear(t)
  {
    && t.partial == s.partial && t.held == s.held && t.split == s.split
    && Flatten(t.m, t.partial) == Flatten(s.m, s.partial)
    && Outs(t.m, t.held) == Outs(s.m, s.held) && Outs(t.m, t.split) == Outs(s.m, s.split)
  }

  /** The memory may change where no message looks. */
  lemma ClearAgree(s: Store, n: Memory)
    requires Clear(s) && Agree(s.m, n, Owners(s), s.buf, s.end)
    ensures Clear(s.(m := n)) && SameBytes(s, s.(m := n))
  {
    FlattenAgree(s.m, n, Owners(s), s.buf, s.end, s.partial);
    OutsAgree(s.m, n, Owners(s), s.buf, s.end, s.held);
    OutsAgree(s.m, n, Owners(s), s.buf, s.end, s.split);
  }

  /** The bytes up to `end'` are taken. */
  lemma ClearAdvance(s: Store, end': nat)
    requires Clear(s) && s.end <= end'
    ensures Clear(s.(end := end')) && SameBytes(s, s.(end := end'))
  {
    BehindLater(s.partial, s.buf, s.end, end');
    BehindAllLater(s.held, s.buf, s.end, end');
    BehindAllLater(s.split, s.buf, s.end, end');
  }

  function RefAdded(m: Memory, p: nat): Memory
    requires p in m
  {
    m[p := m[p].(refs := m[p].refs + 1)]
  }

  lemma BalancedAdd(s: Store, t: Store)
    requires Balanced(s) && 0 <= s.buf && s.buf in s.m && t.m == RefAdded(s.m, s.buf)
    requires Owners(t) == Owners(s) + multiset{s.buf} && t.mine == s.mine
    ensures Balanced(t)
  {
    forall a ensures Counted(t.m, t.mine, Owners(t), a) {
      assert Counted(s.m, s.mine, Owners(s), a);
    }
  }

  /** Store `s` after the next `size` bytes of the current block have become part of the message. */
  function Taken(s: Store, size: nat): Store
    requires 0 <= s.buf && s.buf in s.m
  {
    s.(m := RefAdded(s.m, s.buf), end := s.end + size, partial := Snoc(s.partial, BufferHandle(s.buf, size, s.end)))
  }

  lemma TakenBalanced(s: Store, size: nat)
    requires Balanced(s) && 0 <= s.buf && s.buf in s.m
    ensures Balanced(Taken(s, size))
  {
    assert Owners(Taken(s, size)) == Owners(s) + multiset{s.buf};
    BalancedAdd(s, Taken(s, size));
  }

  lemma TakenClear(s: Store, size: nat)
    requires Clear(s) && 0 <= s.buf && s.buf in s.m && s.end + size <= s.m[s.buf].Capacity()
    ensures var t := Taken(s, size);
            && Clear(t) && Outs(t.m, t.held) == Outs(s.m, s.held) && Outs(t.m, t.split) == Outs(s.m, s.split)
            && Flatten(t.m, t.partial) == Flatten(s.m, s.partial) + s.m[s.buf].data[s.end..s.end + size]
  {
    hide Owners;
    var u := s.(m := RefAdded(s.m, s.buf));
    ClearAgree(s, u.m);
    ClearAdvance(u, s.end + size);
  }

  lemma StoreTake(s: Store, size: nat)
    requires Safe(s) && 0 <= s.buf && s.buf in s.m && s.end + size <= s.m[s.buf].Capacity()
    ensures var t := Taken(s, size);
            && Safe(t) && Outs(t.m, t.held) == Outs(s.m, s.held) && Outs(t.m, t.split) == Outs(s.m, s.split)
            && Flatten(t.m, t.partial) == Flatten(s.m, s.partial) + s.m[s.buf].data[s.end..s.end + size]
  {
    hide Taken, Outs, Flatten, Balanced;
    TakenBalanced(s, size);
    TakenClear(s, size);
  }

  /** The message is complete. */
  lemma StoreComplete(s: Store, metaSize: int, dataSize: int)
    requires Safe(s)
    ensures var t := s.(partial := Nil, split := More(s.split, Item(s.partial, metaSize, dataSize)));
            && Safe(t) && Owners(t) == Owners(s)
            && Outs(t.m, t.split) == Outs(s.m, s.split) + [Received(metaSize, dataSize, Flatten(s.m, s.partial))]
  {
    var t := s.(partial := Nil, split := More(s.split, Item(s.partial, metaSize, dataSize)));
    assert Owners(t) == Owners(s);
    BalancedSame(s, t);
  }

  lemma {:induction false} ConcatOuts(m: Memory, a: Items, b: Items)
    requires ReadableAll(m, a) && ReadableAll(m, b)
    ensures ReadableAll(m, Concat(a, b)) && Outs(m, Concat(a, b)) == Outs(m, a) + Outs(m, b)
  {
    if b.More? { ConcatOuts(m, a, b.init); }
  }

  lemma {:induction false} ConcatBehind(a: Items, b: Items, buf: int, end: nat)
    requires BehindAll(a, buf, end) && BehindAll(b, buf, end)
    ensures BehindAll(Concat(a, b), buf, end)
  {
    if b.More? { ConcatBehind(a, b.init, buf, end); }
  }

  lemma {:induction false} ConcatNamed(a: Items, b: Items)
    ensures NamedAll(Concat(a, b)) == NamedAll(a) + NamedAll(b)
  {
    if b.More? { ConcatNamed(a, b.init); }
  }

  /** The application is handed what was split off. */
  lemma StoreNotify(s: Store)
    requires Safe(s)
    ensures var t := s.(held := Concat(s.held, s.split), split := NoItems);
            Safe(t) && Owners(t) == Owners(s) && Outs(t.m, t.held) == Outs(s.m, s.held) + Outs(s.m, s.split)
  {
    ConcatOuts(s.m, s.held, s.split);
    ConcatBehind(s.held, s.split, s.buf, s.end);
    ConcatNamed(s.held, s.split);
    var t := s.(held := Concat(s.held, s.split), split := NoItems);
    assert Owners(t) == Owners(s);
    BalancedSame(s, t);
  }

  // ---- Giving references up ------------------------------------------------------------------

  function RefDropped(m: Memory, p: nat): Memory
    requires p in m && 0 < m[p].refs
  {
    if m[p].refs == 1 then m - {p} else m[p := m[p].(refs := m[p].refs - 1)]
  }

  /** One owner fewer; the block goes with the last one. */
  lemma ExactDrop(m: Memory, mine: set<nat>, owners: multiset<nat>, p: nat)
    requires Exact(m, mine, owners) && p in owners
    ensures p in m && 0 < m[p].refs && Exact(RefDropped(m, p), mine, owners - multiset{p})
    ensures Agree(m, RefDropped(m, p), owners - multiset{p}, -1, 0) && Elsewhere(m, RefDropped(m, p), mine)
  {
    assert Counted(m, mine, owners, p);
    var n, left := RefDropped(m, p), owners - multiset{p};
    forall a ensures Counted(n, mine, left, a) && AgreeAt(m, n, left, -1, 0, a) && Untouched(m, n, mine, a) {
      assert Counted(m, mine, owners, a);
    }
  }

  lemma AgreeTwice(m: Memory, n: Memory, o: Memory, p: multiset<nat>, q: multiset<nat>)
    requires Agree(m, n, p, -1, 0) && Agree(n, o, q, -1, 0) && q <= p
    ensures Agree(m, o, q, -1, 0)
  {
    forall a ensures AgreeAt(m, o, q, -1, 0, a) {
      assert AgreeAt(m, n, p, -1, 0, a) && AgreeAt(n, o, q, -1, 0, a);
    }
  }

  /** From `m` to `n` the references in `p` became those in `q`, and nothing else happened. */
  ghost predicate Released(m: Memory, n: Memory, mine: set<nat>, p: multiset<nat>, q: multiset<nat>) {
    Exact(n, mine, q) && q <= p && Agree(m, n, q, -1, 0) && Elsewhere(m, n, mine)
  }

  lemma ReleasedTwice(m: Memory, n: Memory, o: Memory, mine: set<nat>, p: multiset<nat>, q: multiset<nat>, r: multiset<nat>)
    requires Released(m, n, mine, p, q) && Released(n, o, mine, q, r)
    ensures Released(m, o, mine, p, r)
  {
    AgreeTwice(m, n, o, q, r);
    ElsewhereTwice(m, n, o, mine);
  }

  lemma ReleasedNone(m: Memory, mine: set<nat>, p: multiset<nat>)
    requires Exact(m, mine, p)
    ensures Released(m, m, mine, p, p)
  {
    forall a ensures AgreeAt(m, m, p, -1, 0, a) && Untouched(m, m, mine, a) {}
  }

  /** References are given up for everything in `s` that is not in `t`. */
  lemma StoreReleased(s: Store, t: Store)
    requires Safe(s) && Clear(t.(m := s.m)) && t.mine == s.mine && Released(s.m, t.m, s.mine, Owners(s), Owners(t))
    ensures Safe(t) && SameBytes(t.(m := s.m), t)
  {
    var u := t.(m := s.m, buf := -1, end := 0);
    BehindNew(u.partial, -1);
    BehindAllNew(u.held, -1);
    BehindAllNew(u.split, -1);
    FlattenAgree(s.m, t.m, Owners(t), -1, 0, t.partial);
    OutsAgree(s.m, t.m, Owners(t), -1, 0, t.held);
    OutsAgree(s.m, t.m, Owners(t), -1, 0, t.split);
    forall a ensures Counted(t.m, t.mine, Owners(t), a) {
      assert Counted(t.m, s.mine, Owners(t), a);
    }
  }

  /** The current block is given up. */
  lemma StoreFreed(s: Store, n: Memory, owners: multiset<nat>)
    requires Safe(s) && -1 <= s.buf && Released(s.m, n, s.mine, Owners(s), owners)
    requires owners == if 0 <= s.buf then Owners(s) - multiset{s.buf} else Owners(s)
    ensures var t := s.(m := n, buf := -1, end := 0); Safe(t) && SameBytes(s, t) && Elsewhere(s.m, n, s.mine)
  {
    var t := s.(m := n, buf := -1, end := 0);
    BehindNew(s.partial, -1);
    BehindAllNew(s.held, -1);
    BehindAllNew(s.split, -1);
    assert Owners(t) == owners;
    StoreReleased(s, t);
  }

  lemma BalancedExact(s: Store)
    requires Balanced(s)
    ensures Exact(s.m, s.mine, Owners(s))
  {
    forall a ensures Counted(s.m, s.mine, Owners(s), a) {}
  }

  /** The transport fills the free part. */
  lemma StoreFilled(s: Store, bytes: seq<byte>)
    requires Safe(s) && 0 <= s.buf && s.buf in s.m && s.end + |bytes| <= s.m[s.buf].Capacity()
    ensures var t := s.(m := Written(s.m, s.buf, s.end, bytes));
            Safe(t) && SameBytes(s, t) && Splitting(t, s.end, bytes, 0) && Elsewhere(s.m, t.m, s.mine)
  {
    var n, data := Written(s.m, s.buf, s.end, bytes), s.m[s.buf].data;
    assert n[s.buf].data == Splice(data, s.end, bytes);
    forall a ensures AgreeAt(s.m, n, Owners(s), s.buf, s.end, a) {}
    ClearAgree(s, n);
    BufferMine(s);
    forall a ensures Counted(n, s.mine, Owners(s), a) && Untouched(s.m, n, s.mine, a) {
      assert Counted(s.m, s.mine, Owners(s), a);
    }
    BalancedSame(s.(m := n), s.(m := n));
  }

  /** A fresh block becomes the current one. */
  lemma StoreFresh(s: Store, p: nat, n: Memory)
    requires Safe(s) && s.buf == -1 && p !in s.m && p in n && n == s.m[p := n[p]] && n[p].refs == 1
    ensures var t := s.(m := n, mine := s.mine + {p}, buf := p, end := 0);
            Safe(t) && SameBytes(s, t) && Elsewhere(s.m, n, s.mine)
  {
    var t := s.(m := n, mine := s.mine + {p}, buf := p, end := 0);
    assert Counted(s.m, s.mine, Owners(s), p);
    forall a ensures AgreeAt(s.m, n, Owners(s), -1, s.end, a) {}
    ClearAgree(s, n);
    BehindNew(s.partial, p);
    BehindAllNew(s.held, p);
    BehindAllNew(s.split, p);
    assert Owners(t) == Owners(s) + multiset{p};
    forall a ensures Counted(t.m, t.mine, Owners(t), a) && Untouched(s.m, n, s.mine, a) {
      assert Counted(s.m, s.mine, Owners(s), a);
    }
  }

  // ---- Feeding chunks -------------------------------------------------------------------------

  function ParserOf(identified: bool, header: seq<byte>, h: Header, body: seq<byte>, out: seq<Received>): Parser {
    if identified then InBody(h, body, out) else InHeader(header, out)
  }

  ghost predicate GoesOnFrom(v0: Parser, bytes: seq<byte>, q: Parser, rest: seq<byte>)
    requires WellFormed(v0)
  {
    WellFormed(q) && Feed(v0, bytes + rest) == Feed(q, rest)
  }

  /** After `done` bytes of the chunk the parser goes on as from `q`, whatever comes next. */
  ghost predicate Reached(v0: Parser, bytes: seq<byte>, done: nat, q: Parser) {
    WellFormed(v0) && done <= |bytes| && forall rest :: GoesOnFrom(v0, bytes[..done], q, rest)
  }

  lemma {:induction false} ReachedStart(v0: Parser, bytes: seq<byte>)
    requires WellFormed(v0)
    ensures Reached(v0, bytes, 0, v0)
  {
    var none := bytes[..0];
    forall rest ensures GoesOnFrom(v0, none, v0, rest) {
      assert none + rest == rest;
    }
  }

  /** A position is reached in one state only, that of the parser fed so far. */
  lemma {:induction false} ReachedIs(v0: Parser, bytes: seq<byte>, done: nat, q: Parser)
    requires WellFormed(v0) && done <= |bytes|
    ensures Reached(v0, bytes, done, q) <==> q == Feed(v0, bytes[..done])
  {
    if Reached(v0, bytes, done, q) {
      assert GoesOnFrom(v0, bytes[..done], q, []);
      assert bytes[..done] + [] == bytes[..done];
    }
    if q == Feed(v0, bytes[..done]) {
      forall rest ensures GoesOnFrom(v0, bytes[..done], q, rest) {
        FeedAppend(v0, bytes[..done], rest);
      }
    }
  }

  lemma {:induction false} ReachedMore(v0: Parser, bytes: seq<byte>, done: nat, q: Parser, n: nat)
    requires Reached(v0, bytes, done, q) && done + n <= |bytes|
    ensures WellFormed(q) && Reached(v0, bytes, done + n, Feed(q, bytes[done..done + n]))
  {
    var a, b, chunk := bytes[..done], bytes[..done + n], bytes[done..done + n];
    assert GoesOnFrom(v0, a, q, chunk);
    forall rest ensures GoesOnFrom(v0, b, Feed(q, chunk), rest) {
      assert GoesOnFrom(v0, a, q, chunk + rest);
      assert b + rest == a + (chunk + rest);
      FeedAppend(q, chunk, rest);
    }
  }

  lemma {:induction false} ReachedHeader(v0: Parser, bytes: seq<byte>, done: nat, header: seq<byte>, out: seq<Received>, n: nat)
    requires Reached(v0, bytes, done, InHeader(header, out)) && 0 < n <= |bytes| - done && |header| + n <= HEADER_SIZE
    ensures Reached(v0, bytes, done + n, HeaderSoFar(header + bytes[done..done + n], out))
  {
    ReachedMore(v0, bytes, done, InHeader(header, out), n);
    FeedHeader(header, out, bytes[done..done + n]);
  }

  lemma {:induction false} ReachedBody(v0: Parser, bytes: seq<byte>, done: nat, h: Header, body: seq<byte>, out: seq<Received>, n: nat)
    requires Reached(v0, bytes, done, Complete(h, body, out)) && |body| + n <= h.messageSize && n <= |bytes| - done
    ensures Reached(v0, bytes, done + n, Complete(h, body + bytes[done..done + n], out))
  {
    if n == 0 {
      assert body + bytes[done..done + n] == body;
    } else {
      ReachedMore(v0, bytes, done, InBody(h, body, out), n);
      FeedBody(h, body, out, bytes[done..done + n]);
    }
  }

  /** A parser that has stopped stays where it is. */
  lemma {:induction false} ReachedEnd(v0: Parser, bytes: seq<byte>, done: nat, q: Parser)
    requires Reached(v0, bytes, done, q) && !q.Running()
    ensures Reached(v0, bytes, |bytes|, q)
  {
    ReachedMore(v0, bytes, done, q, |bytes| - done);
    FeedStuck(q, bytes[done..|bytes|]);
  }

  /** A store whose current block has a chunk at `start`, of which `done` bytes are split. */
  ghost predicate Splitting(s: Store, start: nat, bytes: seq<byte>, done: nat) {
    && Safe(s) && 0 <= s.buf && s.buf in s.m && s.end == start + done && done <= |bytes|
    && start + |bytes| <= s.m[s.buf].Capacity() && s.m[s.buf].data[start..start + |bytes|] == bytes
  }

  lemma SliceOfSlice(data: seq<byte>, start: nat, bytes: seq<byte>, done: nat, n: nat)
    requires start + |bytes| <= |data| && data[start..start + |bytes|] == bytes && done + n <= |bytes|
    ensures data[start + done..start + done + n] == bytes[done..done + n]
  {
    var a, b := data[start + done..start + done + n], bytes[done..done + n];
    forall k | 0 <= k < n ensures a[k] == b[k] {
      assert a[k] == data[start + (done + k)] == data[start..start + |bytes|][done + k];
    }
  }

  lemma SplittingTake(s: Store, start: nat, bytes: seq<byte>, done: nat, n: nat)
    requires Splitting(s, start, bytes, done) && done + n <= |bytes|
    ensures Splitting(Taken(s, n), start, bytes, done + n)
  {
    StoreTake(s, n);
    assert Taken(s, n).m[s.buf].data == s.m[s.buf].data;
  }

  lemma SplittingSkip(s: Store, start: nat, bytes: seq<byte>, done: nat, n: nat)
    requires Splitting(s, start, bytes, done) && done + n <= |bytes|
    ensures Splitting(s.(end := s.end + n), start, bytes, done + n)
  {
    ClearAdvance(s, s.end + n);
    BalancedSame(s, s.(end := s.end + n));
  }

  /** The header `h` is known and the body is being collected; it may be empty. */
  ghost predicate Collecting(v0: Parser, bytes: seq<byte>, start: nat, done: nat, s: Store, h: Header) {
    && Splitting(s, start, bytes, done) && Sizes(s.partial) <= h.messageSize
    && Reached(v0, bytes, done, Complete(h, Flatten(s.m, s.partial), Outs(s.m, s.split)))
  }

  lemma CollectingTake(v0: Parser, bytes: seq<byte>, start: nat, done: nat, s: Store, h: Header, n: nat)
    requires Collecting(v0, bytes, start, done, s, h) && done + n <= |bytes| && Sizes(s.partial) + n <= h.messageSize
    ensures Collecting(v0, bytes, start, done + n, Taken(s, n), h)
    ensures Outs(Taken(s, n).m, s.held) == Outs(s.m, s.held)
  {
    StoreTake(s, n);
    SplittingTake(s, start, bytes, done, n);
    SliceOfSlice(s.m[s.buf].data, start, bytes, done, n);
    ReachedBody(v0, bytes, done, h, Flatten(s.m, s.partial), Outs(s.m, s.split), n);
  }

  function Completed(s: Store, h: Header): Store {
    s.(partial := Nil, split := More(s.split, Item(s.partial, h.metaSize, h.dataSize)))
  }

  lemma CollectingEnd(v0: Parser, bytes: seq<byte>, start: nat, done: nat, s: Store, h: Header)
    requires Collecting(v0, bytes, start, done, s, h) && Sizes(s.partial) == h.messageSize
    ensures var t := Completed(s, h);
            Splitting(t, start, bytes, done) && Reached(v0, bytes, done, InHeader([], Outs(t.m, t.split)))
  {
    StoreComplete(s, h.metaSize, h.dataSize);
  }

  lemma {:induction false} ParserAfter(v0: Parser, bytes: seq<byte>, q: Parser)
    requires Reached(v0, bytes, |bytes|, q)
    ensures WellFormed(v0) && Feed(v0, bytes) == q
  {
    ReachedIs(v0, bytes, |bytes|, q);
    assert bytes[..|bytes|] == bytes;
  }

  /** `p` as it would be had it given out `out`. */
  function GivenOut(p: Parser, out: seq<Received>): Parser {
    match p
    case InHeader(header, _) => InHeader(header, out)
    case InBody(h, body, _) => InBody(h, body, out)
    case _ => p
  }

  datatype ReadResult = Done | BrokenStream | OutOfMemory

  /** A chunk to be split: where the parser was, the bytes, what the application held, and
      what memory was when they arrived. */
  datatype Chunk = Chunk(v0: Parser, bytes: seq<byte>, kept: seq<Received>, start: Memory)

  class Receiver {
    const pool: TranBufPool
    const factor: nat
    var tranBuf: int
    var offset: nat
    var size: nat
    var header: seq<byte>
    var receivingHeader: Header
    var identified: bool
    var receivedSize: nat
    var partial: Handles
    /** What the application holds: messages handed to on_received and not yet destroyed. */
    var held: Items
    ghost var mine: set<nat>
    /** No message names anything of the current block from here on. */
    ghost var taken: nat

    ghost function StoreAt(end: nat, split: Items): Store
      reads `mine, `tranBuf, `partial, `held, pool
    {
      Store(pool.blocks, mine, tranBuf, end, partial, held, split)
    }

    /** Between two calls every message can be read, and the counts of blocks are exact. */
    ghost predicate Valid()
      reads this, pool
    {
      pool.Valid() && Safe(StoreAt(taken, NoItems)) && -1 <= tranBuf
    }

    ghost predicate Resumable()
      reads `header, `receivingHeader, `identified, `receivedSize, `partial
    {
      if identified then Sizes(partial) == receivedSize < receivingHeader.messageSize
      else |header| < HEADER_SIZE && partial == Nil && receivedSize == 0
    }

    /** Able to receive: there is a current block with room, and messages keep clear of its
        free part, which is all of it from `offset` on. */
    ghost predicate Ready()
      reads this, pool
    {
      && Valid() && taken == offset && 0 <= tranBuf && tranBuf in pool.blocks
      && offset + size == pool.blocks[tranBuf].Capacity() && 0 < size && Resumable()
    }

    /** Where a parser fed byte by byte would be, not counting what it gave out before. */
    ghost function View(): Parser
      requires Valid()
      reads this, pool
    {
      ParserOf(identified, header, receivingHeader, Flatten(pool.blocks, partial), [])
    }

    constructor (pool: TranBufPool, factor: nat)
      requires pool.Valid()
      ensures Valid() && this.pool == pool && this.factor == factor && held == NoItems && tranBuf == -1 && mine == {}
    {
      this.pool, this.factor := pool, factor;
      tranBuf, offset, size := -1, 0, 0;
      header, receivingHeader, identified := [], Header(0, 0, 0, 0), false;
      receivedSize, partial, held, mine, taken := 0, Nil, NoItems, {}, 0;
    }

    /** More bytes of a header: 1 once it is complete, 0 if it is not, -1 if it is no header. */
    method IdentifyMessageHeader(data: nat, n: nat) returns (result: int, consumed: nat)
      requires 0 <= tranBuf && tranBuf in pool.blocks && data + n <= |pool.blocks[tranBuf].data|
      requires 0 < n && |header| < HEADER_SIZE
      modifies this`header, this`receivingHeader
      ensures 0 < consumed <= n && |header| <= HEADER_SIZE
      ensures header == old(header) + pool.blocks[tranBuf].data[data..data + consumed]
      ensures |header| < HEADER_SIZE ==> result == 0 && consumed == n
      ensures |header| == HEADER_SIZE ==>
                && receivingHeader == DecodeHeader(header)
                && result == if receivingHeader.magic == MESSAGE_HEAD_MAGIC then 1 else -1
    {
      consumed := if n < HEADER_SIZE - |header| then n else HEADER_SIZE - |header|;
      header := header + pool.blocks[tranBuf].data[data..data + consumed];
      if |header| < HEADER_SIZE { return 0, consumed; }
      receivingHeader := DecodeHeader(header);
      result := if receivingHeader.magic == MESSAGE_HEAD_MAGIC then 1 else -1;
    }

    /** ReadBuffer::Append of bytes of the current block to the message being received. */
    method Append(data: nat, n: nat, ghost split: Items)
      requires pool.Valid() && 0 <= tranBuf && tranBuf in pool.blocks && tranBuf in mine
      modifies this`partial, this`receivedSize, pool`blocks
      ensures pool.Valid() && receivedSize == old(receivedSize) + n
      ensures StoreAt(data + n, split) == Taken(old(StoreAt(data, split)), n)
      ensures Elsewhere(old(pool.blocks), pool.blocks, mine)
    {
      pool.AddRef(tranBuf);
      partial := Snoc(partial, BufferHandle(tranBuf, n, data));
      receivedSize := receivedSize + n;
    }

    method ResetReceivingEnv()
      modifies this`partial, this`receivedSize, this`header, this`identified
      ensures partial == Nil && receivedSize == 0 && header == [] && !identified
    {
      partial, receivedSize, header, identified := Nil, 0, [], false;
    }

    /** The free part reaches to the end of the current block. */
    ghost predicate Bounded(s: Store)
      reads `offset, `size
    {
      0 <= s.buf && s.buf in s.m && offset + size == s.m[s.buf].Capacity()
    }

    ghost function Current(s: Store): Parser
      requires Clear(s)
      reads `header, `receivingHeader, `identified
    {
      ParserOf(identified, header, receivingHeader, Flatten(s.m, s.partial), Outs(s.m, s.split))
    }

    /** The chunk is in the current block, and `done` bytes of it are split. What the
        application held when it arrived reads as it did, and foreign blocks are untouched. */
    ghost predicate Placed(c: Chunk, done: nat, s: Store)
      reads `mine, `tranBuf, `partial, `held, `offset, `size, pool
    {
      && pool.Valid() && s == StoreAt(offset + done, s.split) && Splitting(s, offset, c.bytes, done) && Bounded(s)
      && Outs(s.m, held) == c.kept && Elsewhere(c.start, s.m, mine) && WellFormed(c.v0)
    }

    // The three states below are stated for whatever comes next, so that the loop over a
    // chunk can pass them on without looking into them.

    ghost predicate InStep(c: Chunk, done: nat, s: Store, rest: seq<byte>)
      reads `mine, `tranBuf, `partial, `held, `offset, `size, `header, `receivingHeader, `identified, `receivedSize, pool
    {
      Placed(c, done, s) && GoesOnFrom(c.v0, c.bytes[..done], Current(s), rest)
    }

    /** `done` bytes of the chunk are split, and the stream is where the parser is. */
    ghost predicate Working(c: Chunk, done: nat, s: Store)
      reads `mine, `tranBuf, `partial, `held, `offset, `size, `header, `receivingHeader, `identified, `receivedSize, pool
    {
      WellFormed(c.v0) && Resumable() && forall rest :: InStep(c, done, s, rest)
    }

    ghost predicate InBodyStep(c: Chunk, done: nat, s: Store, rest: seq<byte>)
      reads `mine, `tranBuf, `partial, `held, `offset, `size, `header, `receivingHeader, `identified, `receivedSize, pool
    {
      && Placed(c, done, s) && receivedSize == Sizes(partial)
      && GoesOnFrom(c.v0, c.bytes[..done], Complete(receivingHeader, Flatten(s.m, s.partial), Outs(s.m, s.split)), rest)
    }

    /** Between header and body. */
    ghost predicate HasHeader(c: Chunk, done: nat, s: Store)
      reads `mine, `tranBuf, `partial, `held, `offset, `size, `header, `receivingHeader, `identified, `receivedSize, pool
    {
      identified && receivedSize <= receivingHeader.messageSize && forall rest :: InBodyStep(c, done, s, rest)
    }

    ghost predicate Wrecked(c: Chunk, s: Store, rest: seq<byte>)
      reads `mine, `tranBuf, `partial, `held, `offset, `size, pool
    {
      Placed(c, |c.bytes|, s) && GoesOnFrom(c.v0, c.bytes[..|c.bytes|], Broken, rest)
    }

    /** The stream is broken; memory is still in order. */
    ghost predicate Ruined(c: Chunk, s: Store)
      reads `mine, `tranBuf, `partial, `held, `offset, `size, pool
    {
      WellFormed(c.v0) && forall rest :: Wrecked(c, s, rest)
    }

    lemma WorkingIs(c: Chunk, done: nat, s: Store)
      requires Working(c, done, s)
      ensures Placed(c, done, s) && Reached(c.v0, c.bytes, done, Current(s))
    {
      assert InStep(c, done, s, []);
      forall rest ensures GoesOnFrom(c.v0, c.bytes[..done], Current(s), rest) {
        assert InStep(c, done, s, rest);
      }
    }

    lemma IsWorking(c: Chunk, done: nat, s: Store)
      requires Resumable() && Placed(c, done, s) && Reached(c.v0, c.bytes, done, Current(s))
      ensures Working(c, done, s)
    {
    }

    lemma HasHeaderIs(c: Chunk, done: nat, s: Store)
      requires HasHeader(c, done, s)
      ensures Placed(c, done, s) && receivedSize == Sizes(partial) && Collecting(c.v0, c.bytes, offset, done, s, receivingHeader)
    {
      assert InBodyStep(c, done, s, []);
      forall rest
        ensures GoesOnFrom(c.v0, c.bytes[..done], Complete(receivingHeader, Flatten(s.m, s.partial), Outs(s.m, s.split)), rest)
      {
        assert InBodyStep(c, done, s, rest);
      }
    }

    lemma IsHasHeader(c: Chunk, done: nat, s: Store)
      requires identified && Placed(c, done, s) && receivedSize == Sizes(partial)
      requires Collecting(c.v0, c.bytes, offset, done, s, receivingHeader)
      ensures HasHeader(c, done, s)
    {
    }

    ghost predicate StandsFor(c: Chunk, done: nat, s: Store, out: seq<Received>, q: Parser, rest: seq<byte>)
      reads `mine, `tranBuf, `partial, `held, `offset, `size, pool
    {
      Placed(c, done, s) && Outs(s.m, s.split) == out && GoesOnFrom(c.v0, c.bytes[..done], q, rest)
    }

    /** `done` bytes of the chunk have gone by, `out` is split off and the parser is at `q`. */
    ghost predicate Stands(c: Chunk, done: nat, s: Store, out: seq<Received>, q: Parser)
      reads `mine, `tranBuf, `partial, `held, `offset, `size, pool
    {
      forall rest :: StandsFor(c, done, s, out, q, rest)
    }

    lemma StandsIs(c: Chunk, done: nat, s: Store, out: seq<Received>, q: Parser)
      requires Stands(c, done, s, out, q)
      ensures Placed(c, done, s) && Outs(s.m, s.split) == out && Reached(c.v0, c.bytes, done, q)
    {
      assert StandsFor(c, done, s, out, q, []);
      forall rest ensures GoesOnFrom(c.v0, c.bytes[..done], q, rest) {
        assert StandsFor(c, done, s, out, q, rest);
      }
    }

    lemma StandsInHeader(c: Chunk, done: nat, s: Store) returns (out: seq<Received>)
      requires Working(c, done, s) && !identified
      ensures Stands(c, done, s, out, InHeader(header, out))
      ensures 0 <= tranBuf && tranBuf in pool.blocks && offset + |c.bytes| <= |pool.blocks[tranBuf].data|
      ensures pool.blocks[tranBuf].data[offset..offset + |c.bytes|] == c.bytes
    {
      WorkingIs(c, done, s);
      out := Outs(s.m, s.split);
    }

    lemma HeaderTaken(c: Chunk, done: nat, s: Store, out: seq<Received>, header0: seq<byte>, n: nat) returns (t: Store)
      requires Stands(c, done, s, out, InHeader(header0, out)) && 0 < n && done + n <= |c.bytes| && |header0| + n <= HEADER_SIZE
      ensures t.split == s.split && Stands(c, done + n, t, out, HeaderSoFar(header0 + c.bytes[done..done + n], out))
    {
      StandsIs(c, done, s, out, InHeader(header0, out));
      ReachedHeader(c.v0, c.bytes, done, header0, out, n);
      SplittingSkip(s, offset, c.bytes, done, n);
      t := s.(end := s.end + n);
    }

    lemma StillInHeader(c: Chunk, done: nat, t: Store, out: seq<Received>)
      requires Stands(c, done, t, out, InHeader(header, out)) && !identified && Resumable()
      ensures Working(c, done, t)
    {
      StandsIs(c, done, t, out, InHeader(header, out));
      IsWorking(c, done, t);
    }

    /** A header that is none stops the parser for good. */
    lemma Breaks(c: Chunk, done: nat, s: Store, out: seq<Received>) returns (t: Store)
      requires Stands(c, done, s, out, Broken) && done <= |c.bytes|
      ensures t.split == s.split && Ruined(c, t)
    {
      StandsIs(c, done, s, out, Broken);
      ReachedEnd(c.v0, c.bytes, done, Broken);
      SplittingSkip(s, offset, c.bytes, done, |c.bytes| - done);
      t := s.(end := s.end + (|c.bytes| - done));
    }

    /** The header is complete. */
    lemma Judged(c: Chunk, done: nat, s: Store, out: seq<Received>)
      requires |header| == HEADER_SIZE && receivingHeader == DecodeHeader(header)
      requires Stands(c, done, s, out, HeaderSoFar(header, out)) && !Reached(c.v0, c.bytes, |c.bytes|, Undefined)
      ensures receivingHeader.magic != MESSAGE_HEAD_MAGIC ==> Stands(c, done, s, out, Broken)
      ensures receivingHeader.magic == MESSAGE_HEAD_MAGIC ==>
                0 <= receivingHeader.messageSize && Stands(c, done, s, out, Complete(receivingHeader, [], out))
    {
      if receivingHeader.magic == MESSAGE_HEAD_MAGIC && receivingHeader.messageSize < 0 {
        StandsIs(c, done, s, out, Undefined);
        ReachedEnd(c.v0, c.bytes, done, Undefined);
      }
    }

    /** The header is known; the body is next, if there is any. */
    lemma BodyNext(c: Chunk, done: nat, t: Store, out: seq<Received>)
      requires Stands(c, done, t, out, Complete(receivingHeader, [], out)) && identified && partial == Nil && receivedSize == 0
      requires 0 <= receivingHeader.messageSize
      ensures HasHeader(c, done, t) && (0 < receivingHeader.messageSize ==> Working(c, done, t))
    {
      StandsIs(c, done, t, out, Complete(receivingHeader, [], out));
      IsHasHeader(c, done, t);
      if 0 < receivingHeader.messageSize { StillReceiving(c, done, t); }
    }

    /** More of the header, as the parser sees it. */
    method ReadHeader(data: nat, n: nat, ghost c: Chunk, ghost done: nat, ghost s: Store)
      returns (result: int, consumed: nat, ghost t: Store, ghost out: seq<Received>)
      requires Working(c, done, s) && data == offset + done && done + n == |c.bytes| && 0 < n && !identified
      modifies this`header, this`receivingHeader
      ensures 0 < consumed <= n && |header| <= HEADER_SIZE && partial == Nil && receivedSize == 0
      ensures t.split == s.split && Stands(c, done + consumed, t, out, HeaderSoFar(header, out))
      ensures |header| < HEADER_SIZE ==> result == 0 && consumed == n
      ensures |header| == HEADER_SIZE ==>
                && receivingHeader == DecodeHeader(header)
                && result == if receivingHeader.magic == MESSAGE_HEAD_MAGIC then 1 else -1
    {
      out := StandsInHeader(c, done, s);
      ghost var header0 := header;
      result, consumed := IdentifyMessageHeader(data, n);
      SliceOfSlice(pool.blocks[tranBuf].data, offset, c.bytes, done, consumed);
      t := HeaderTaken(c, done, s, out, header0, consumed);
    }

    /** The header phase of the loop: ends it if the header or the chunk does. */
    method HeaderPhase(data: nat, n: nat, ghost c: Chunk, ghost done: nat, ghost s: Store)
      returns (more: bool, broken: bool, consumed: nat, ghost t: Store)
      requires Working(c, done, s) && data == offset + done && done + n == |c.bytes| && 0 < n
      requires !Reached(c.v0, c.bytes, |c.bytes|, Undefined) && !identified
      modifies this`header, this`receivingHeader, this`identified
      ensures 0 < consumed <= n && t.split == s.split && (more || consumed == n)
      ensures broken ==> !more && Ruined(c, t)
      ensures !broken && !more ==> Working(c, |c.bytes|, t)
      ensures more ==> HasHeader(c, done + consumed, t) && (consumed == n ==> receivingHeader.messageSize == 0)
    {
      var result;
      ghost var out;
      result, consumed, t, out := ReadHeader(data, n, c, done, s);
      more, broken := false, result < 0;
      if result == 0 {
        StillInHeader(c, |c.bytes|, t, out);
      } else {
        Judged(c, done + consumed, t, out);
        if broken {
          t := Breaks(c, done + consumed, t, out);
          consumed := n;
        } else {
          identified := true;
          more := !(consumed == n && receivingHeader.messageSize > 0);
          BodyNext(c, done + consumed, t, out);
        }
      }
    }

    /** Appends bytes of the chunk that belong to the body. */
    method TakeBody(data: nat, n: nat, ghost c: Chunk, ghost done: nat, ghost s: Store) returns (ghost t: Store)
      requires HasHeader(c, done, s) && data == offset + done && done + n <= |c.bytes|
      requires receivedSize + n <= receivingHeader.messageSize
      modifies this`partial, this`receivedSize, pool`blocks
      ensures HasHeader(c, done + n, t) && t.split == s.split && receivedSize == old(receivedSize) + n
    {
      if n == 0 {
        t := s;
      } else {
        t := AppendBody(data, n, c, done, s);
      }
    }

    method AppendBody(data: nat, n: nat, ghost c: Chunk, ghost done: nat, ghost s: Store) returns (ghost t: Store)
      requires HasHeader(c, done, s) && data == offset + done && done + n <= |c.bytes|
      requires receivedSize + n <= receivingHeader.messageSize
      modifies this`partial, this`receivedSize, pool`blocks
      ensures HasHeader(c, done + n, t) && t.split == s.split && receivedSize == old(receivedSize) + n
    {
      HasHeaderIs(c, done, s);
      CollectingTake(c.v0, c.bytes, offset, done, s, receivingHeader, n);
      BufferMine(s);
      Append(data, n, s.split);
      t := Taken(s, n);
      assert t == StoreAt(offset + (done + n), s.split);
      ElsewhereTwice(c.start, s.m, t.m, mine);
      IsHasHeader(c, done + n, t);
    }

    /** The body is complete: the message is split off and the next one begins. */
    method EndMessage(split: Items, ghost c: Chunk, ghost done: nat, ghost s: Store)
      returns (split': Items, ghost t: Store)
      requires HasHeader(c, done, s) && s.split == split && receivedSize == receivingHeader.messageSize
      modifies this`header, this`identified, this`partial, this`receivedSize
      ensures Working(c, done, t) && t.split == split'
    {
      HasHeaderIs(c, done, s);
      CollectingEnd(c.v0, c.bytes, offset, done, s, receivingHeader);
      t := Completed(s, receivingHeader);
      split' := More(split, Item(partial, receivingHeader.metaSize, receivingHeader.dataSize));
      ResetReceivingEnv();
      IsWorking(c, done, t);
    }

    lemma GoesOnReceiving(c: Chunk, done: nat, s: Store)
      requires Working(c, done, s) && identified
      ensures HasHeader(c, done, s)
    {
      WorkingIs(c, done, s);
      IsHasHeader(c, done, s);
    }

    lemma StillReceiving(c: Chunk, done: nat, s: Store)
      requires HasHeader(c, done, s) && receivedSize < receivingHeader.messageSize
      ensures Working(c, done, s)
    {
      HasHeaderIs(c, done, s);
      IsWorking(c, done, s);
    }

    /** The body phase: takes what is there of the body, and ends the message if that is all of it. */
    method BodyPhase(data: nat, n: nat, split: Items, ghost c: Chunk, ghost done: nat, ghost s: Store)
      returns (used: nat, split': Items, ghost t: Store)
      requires HasHeader(c, done, s) && s.split == split && data == offset + done && done + n == |c.bytes|
      requires n == 0 ==> receivedSize == receivingHeader.messageSize
      modifies this`header, this`identified, this`partial, this`receivedSize, pool`blocks
      ensures used <= n && Working(c, done + used, t) && t.split == split'
      ensures old(receivedSize < receivingHeader.messageSize) && 0 < n ==> 0 < used
    {
      var rest := receivingHeader.messageSize - receivedSize;
      used := if n < rest then n else rest;
      t := TakeBody(data, used, c, done, s);
      if n < rest {
        split' := split;
        StillReceiving(c, done + used, t);
      } else {
        split', t := EndMessage(split, c, done + used, t);
      }
    }

    /** Goes through the header phase unless the header is known. */
    method EnterBody(data: nat, n: nat, ghost c: Chunk, ghost done: nat, ghost s: Store)
      returns (more: bool, broken: bool, consumed: nat, ghost t: Store)
      requires Working(c, done, s) && data == offset + done && done + n == |c.bytes| && 0 < n
      requires !Reached(c.v0, c.bytes, |c.bytes|, Undefined)
      modifies this`header, this`receivingHeader, this`identified
      ensures consumed <= n && t.split == s.split && (more || consumed == n)
      ensures broken ==> !more && Ruined(c, t)
      ensures !broken && !more ==> Working(c, |c.bytes|, t)
      ensures more ==>
                && HasHeader(c, done + consumed, t) && (consumed == n ==> receivingHeader.messageSize == receivedSize)
                && (consumed == 0 ==> receivedSize < receivingHeader.messageSize)
    {
      if identified {
        GoesOnReceiving(c, done, s);
        more, broken, consumed, t := true, false, 0, s;
      } else {
        more, broken, consumed, t := HeaderPhase(data, n, c, done, s);
      }
    }

    /** One turn of the loop over a chunk. */
    method SplitNext(data: nat, n: nat, split: Items, ghost c: Chunk, ghost done: nat, ghost s: Store)
      returns (more: bool, broken: bool, used: nat, split': Items, ghost t: Store)
      requires Working(c, done, s) && s.split == split && data == offset + done && done + n == |c.bytes| && 0 < n
      requires !Reached(c.v0, c.bytes, |c.bytes|, Undefined)
      modifies this`header, this`receivingHeader, this`identified, this`partial, this`receivedSize, pool`blocks
      ensures 0 < used <= n && t.split == split' && (more || used == n)
      ensures broken ==> !more && Ruined(c, t)
      ensures !broken ==> Working(c, done + used, t)
    {
      more, broken, used, t := EnterBody(data, n, c, done, s);
      split' := split;
      if !more { return; }
      var taken;
      taken, split', t := BodyPhase(data + used, n - used, split, c, done + used, t);
      used := used + taken;
    }

    /** The loop over one chunk: every message it completes is split off, in order. */
    method SplitAndProcessMessage(n0: nat, ghost c: Chunk) returns (ok: bool, split: Items)
      requires Working(c, 0, StoreAt(offset, NoItems)) && n0 == |c.bytes|
      requires !Reached(c.v0, c.bytes, |c.bytes|, Undefined)
      modifies this`header, this`receivingHeader, this`identified, this`partial, this`receivedSize, pool`blocks
      ensures ok ==> Working(c, |c.bytes|, StoreAt(offset + n0, split))
      ensures !ok ==> Ruined(c, StoreAt(offset + n0, split))
    {
      var data, n := offset, n0;
      ghost var done, s := 0, StoreAt(offset, NoItems);
      split, ok := NoItems, true;
      var more := true;
      while n > 0 && more
        invariant 0 <= n <= n0 && done + n == |c.bytes| && data == offset + done && s.split == split && (more || n == 0)
        invariant if ok then Working(c, done, s) else Ruined(c, s) && !more
      {
        var broken, used;
        more, broken, used, split, s := SplitNext(data, n, split, c, done, s);
        ok := !broken;
        data, n, done := data + used, n - used, done + used;
      }
      if ok { WorkingIs(c, done, s); } else { assert Wrecked(c, s, []); }
    }

    // -- Giving references up --

    method DropOne(p: nat, ghost m: Memory, ghost all: multiset<nat>, ghost owners: multiset<nat>)
      requires pool.Valid() && Released(m, pool.blocks, mine, all, owners) && p in owners
      modifies pool`blocks
      ensures pool.Valid() && Released(m, pool.blocks, mine, all, owners - multiset{p})
    {
      ghost var n := pool.blocks;
      ExactDrop(n, mine, owners, p);
      pool.Free(p);
      ReleasedTwice(m, n, pool.blocks, mine, all, owners, owners - multiset{p});
    }

    /** ReadBuffer's destructor: one reference less for every handle. */
    method Release(hs: Handles, ghost rest: multiset<nat>)
      requires pool.Valid() && Exact(pool.blocks, mine, rest + Named(hs))
      modifies pool`blocks
      ensures pool.Valid() && Released(old(pool.blocks), pool.blocks, mine, rest + Named(hs), rest)
    {
      var it := 0;
      ghost var owners, all := rest + Named(hs), rest + Named(hs);
      ReleasedNone(pool.blocks, mine, all);
      NamedStart(hs, rest);
      while it < Count(hs)
        invariant 0 <= it <= Count(hs) && pool.Valid() && owners + Named(Take(hs, it)) == all
        invariant Released(old(pool.blocks), pool.blocks, mine, all, owners)
      {
        var h := At(hs, it);
        NamedNext(hs, it, rest, owners);
        DropOne(h.data, old(pool.blocks), all, owners);
        owners := owners - multiset{h.data};
        it := it + 1;
      }
      NamedEnd(hs, rest, owners);
    }

    /** The destructor of a list of messages. */
    method ReleaseAll(items: Items, ghost rest: multiset<nat>)
      requires pool.Valid() && Exact(pool.blocks, mine, rest + NamedAll(items))
      modifies pool`blocks
      ensures pool.Valid() && Released(old(pool.blocks), pool.blocks, mine, rest + NamedAll(items), rest)
      decreases items
    {
      match items
      case NoItems =>
        assert rest + NamedAll(items) == rest;
        ReleasedNone(pool.blocks, mine, rest);
      case More(init, i) =>
        ghost var m := pool.blocks;
        assert rest + NamedAll(items) == rest + Named(i.message) + NamedAll(init);
        ReleaseAll(init, rest + Named(i.message));
        ghost var n := pool.blocks;
        Release(i.message, rest);
        ReleasedTwice(m, n, pool.blocks, mine, rest + NamedAll(items), rest + Named(i.message), rest);
    }

    // -- Events --

    /** Gives the current block up, if there is one; messages that name it keep it alive. */
    method FreeTranBuf(ghost end: nat, ghost split: Items)
      requires pool.Valid() && Safe(StoreAt(end, split)) && -1 <= tranBuf
      modifies this`tranBuf, pool`blocks
      ensures pool.Valid() && tranBuf == -1
      ensures Safe(StoreAt(0, split)) && SameBytes(old(StoreAt(end, split)), StoreAt(0, split))
      ensures Elsewhere(old(pool.blocks), pool.blocks, mine)
    {
      ghost var s := StoreAt(end, split);
      ghost var owners := Owners(s);
      BalancedExact(s);
      ReleasedNone(s.m, mine, owners);
      if 0 <= tranBuf {
        BufferMine(s);
        DropOne(tranBuf, s.m, owners, owners);
        owners := owners - multiset{s.buf};
        tranBuf := -1;
      }
      StoreFreed(s, pool.blocks, owners);
    }

    /** There is room for all of a block of the given factor. */
    predicate NewBlock()
      reads this
    {
      offset == 0 && size + OVERHEAD == TRAN_BUF_BLOCK_BASE_SIZE * Pow2(factor)
    }

    /** After `n` more bytes in block `buf`, of which `left` were free from `start` on. Only a
        full block is replaced. */
    predicate MovedOn(n: nat, buf: int, start: nat, left: nat)
      reads this
    {
      if n < left then tranBuf == buf && offset == start + n && size == left - n else NewBlock()
    }

    /** Gives the current block up and takes a new one. */
    method ResetTranBuf(ghost end: nat, ghost split: Items) returns (ok: bool)
      requires pool.Valid() && Safe(StoreAt(end, split)) && -1 <= tranBuf
      modifies this`tranBuf, this`offset, this`size, this`mine, pool
      ensures pool.Valid() && Safe(StoreAt(offset, split)) && SameBytes(old(StoreAt(end, split)), StoreAt(offset, split))
      ensures if ok then 0 <= tranBuf && tranBuf in pool.blocks && offset == 0 && 0 < size == pool.blocks[tranBuf].Capacity() && NewBlock()
              else tranBuf == -1 && mine == old(mine)
      ensures Elsewhere(old(pool.blocks), pool.blocks, old(mine))
      ensures pool.refused == old(pool.refused) + if ok then 0 else 1
    {
      ghost var m := pool.blocks;
      FreeTranBuf(end, split);
      ghost var t := StoreAt(0, split);
      offset, size := 0, 0;
      var p;
      ok, p := pool.Malloc(factor);
      if !ok { return; }
      StoreFresh(t, p, pool.blocks);
      mine := mine + {p};
      tranBuf, size := p, pool.blocks[p].Capacity();
      ElsewhereTwice(m, t.m, pool.blocks, t.mine);
    }

    /** The transport fills part of the free part. */
    method Fill(bytes: seq<byte>, ghost c: Chunk)
      requires Ready() && 0 < |bytes| <= size && Feed(View(), bytes) != Undefined
      requires c == Chunk(View(), bytes, Outs(pool.blocks, held), pool.blocks)
      modifies pool`blocks
      ensures Working(c, 0, StoreAt(offset, NoItems)) && !Reached(c.v0, c.bytes, |c.bytes|, Undefined)
    {
      ghost var s := StoreAt(offset, NoItems);
      StoreFilled(s, bytes);
      pool.Write(tranBuf, offset, bytes);
      assert StoreAt(offset, NoItems) == s.(m := Written(s.m, s.buf, s.end, bytes));
      Arrived(c, StoreAt(offset, NoItems));
    }

    lemma Arrived(c: Chunk, s: Store)
      requires Placed(c, 0, s) && s.split == NoItems && Resumable() && c.v0 == Current(s) && Feed(c.v0, c.bytes) != Undefined
      ensures Working(c, 0, s) && !Reached(c.v0, c.bytes, |c.bytes|, Undefined)
    {
      ReachedStart(c.v0, c.bytes);
      ReachedIs(c.v0, c.bytes, |c.bytes|, Undefined);
      assert c.bytes[..|c.bytes|] == c.bytes;
      IsWorking(c, 0, s);
    }

    lemma ChunkSplit(c: Chunk, s: Store)
      requires Working(c, |c.bytes|, s)
      ensures Placed(c, |c.bytes|, s) && Feed(c.v0, c.bytes) == Current(s)
    {
      WorkingIs(c, |c.bytes|, s);
      ParserAfter(c.v0, c.bytes, Current(s));
    }

    lemma ChunkRuined(c: Chunk, s: Store)
      requires Ruined(c, s)
      ensures Placed(c, |c.bytes|, s) && Feed(c.v0, c.bytes) == Broken
    {
      assert Wrecked(c, s, []);
      assert c.bytes[..|c.bytes|] + [] == c.bytes;
    }

    /** Messages that were split off are destroyed instead of being handed on. */
    method Discard(split: Items)
      requires pool.Valid() && Safe(StoreAt(taken, split)) && -1 <= tranBuf
      modifies pool`blocks
      ensures Valid() && Outs(pool.blocks, held) == old(Outs(pool.blocks, held))
      ensures Elsewhere(old(pool.blocks), pool.blocks, mine)
    {
      ghost var s := StoreAt(taken, split);
      ghost var rest := Owners(s.(split := NoItems));
      assert Owners(s) == rest + NamedAll(split);
      BalancedExact(s);
      ReleaseAll(split, rest);
      StoreReleased(s, StoreAt(taken, NoItems));
    }

    /** A chunk has arrived in the free part. The stream ends up where a parser fed the bytes
        one by one would be, the application gets exactly the messages the parser gave out,
        and the messages it already had keep their bytes. */
    method OnReadSome(bytes: seq<byte>) returns (result: ReadResult, received: Items)
      requires Ready() && 0 < |bytes| <= size && Feed(View(), bytes) != Undefined
      modifies this, pool
      ensures Valid() && Elsewhere(old(pool.blocks), pool.blocks, old(mine))
      ensures result == BrokenStream <==> old(Feed(View(), bytes)) == Broken
      ensures pool.refused == old(pool.refused) + if result != OutOfMemory then 0 else 1
      ensures (result == OutOfMemory ==> |bytes| == old(size)) && (result == Done ==> MovedOn(|bytes|, old(tranBuf), old(offset), old(size)))
      ensures result == Done ==>
                && Ready() && held == Concat(old(held), received) && ReadableAll(pool.blocks, received)
                && old(Feed(View(), bytes)) == GivenOut(View(), Outs(pool.blocks, received))
      ensures result != Done ==> held == old(held)
      ensures ReadableAll(pool.blocks, old(held)) && Outs(pool.blocks, old(held)) == old(Outs(pool.blocks, held))
    {
      ghost var c := Chunk(View(), bytes, Outs(pool.blocks, held), pool.blocks);
      Fill(bytes, c);
      result, received := ProcessChunk(|bytes|, c);
    }

    /** The stream splits the chunk, and the application gets the messages it completes. */
    method ProcessChunk(n: nat, ghost c: Chunk) returns (result: ReadResult, received: Items)
      requires Working(c, 0, StoreAt(offset, NoItems)) && n == |c.bytes| <= size && !Reached(c.v0, c.bytes, |c.bytes|, Undefined)
      modifies this, pool
      ensures Valid() && Elsewhere(c.start, pool.blocks, old(mine))
      ensures result == BrokenStream <==> Feed(c.v0, c.bytes) == Broken
      ensures pool.refused == old(pool.refused) + if result != OutOfMemory then 0 else 1
      ensures (result == OutOfMemory ==> n == old(size)) && (result == Done ==> MovedOn(n, old(tranBuf), old(offset), old(size)))
      ensures result == Done ==>
                && Ready() && held == Concat(old(held), received) && ReadableAll(pool.blocks, received)
                && Feed(c.v0, c.bytes) == GivenOut(View(), Outs(pool.blocks, received))
      ensures result != Done ==> held == old(held)
      ensures ReadableAll(pool.blocks, old(held)) && Outs(pool.blocks, old(held)) == c.kept
    {
      var ok;
      ok, received := SplitAndProcessMessage(n, c);
      taken := offset + n;
      if ok {
        result, received := Advance(n, received, c);
      } else {
        GiveUp(received, c);
        result, received := BrokenStream, NoItems;
      }
    }

    /** The stream is broken; what was split off of this chunk is lost. */
    method GiveUp(split: Items, ghost c: Chunk)
      requires Ruined(c, StoreAt(taken, split))
      modifies pool`blocks
      ensures Valid() && Elsewhere(c.start, pool.blocks, mine) && Outs(pool.blocks, held) == c.kept && Feed(c.v0, c.bytes) == Broken
    {
      ghost var m := pool.blocks;
      ChunkRuined(c, StoreAt(taken, split));
      Discard(split);
      ElsewhereTwice(c.start, m, pool.blocks, mine);
    }

    /** The chunk is split. When the block is full, a new one takes its place. */
    method Refill(n: nat, ghost split: Items) returns (ok: bool)
      requires pool.Valid() && Safe(StoreAt(taken, split)) && taken == offset + n && n <= size && Bounded(StoreAt(taken, split))
      modifies this`tranBuf, this`offset, this`size, this`mine, this`taken, pool
      ensures pool.Valid() && Safe(StoreAt(taken, split)) && SameBytes(old(StoreAt(taken, split)), StoreAt(taken, split))
      ensures Elsewhere(old(pool.blocks), pool.blocks, old(mine)) && -1 <= tranBuf
      ensures if ok then taken == offset && 0 < size && Bounded(StoreAt(taken, split)) else mine == old(mine)
      ensures if ok then MovedOn(n, old(tranBuf), old(offset), old(size)) else n == old(size)
      ensures pool.refused == old(pool.refused) + if ok then 0 else 1
    {
      offset, size := offset + n, size - n;
      ElsewhereNow(pool.blocks, mine);
      ok := true;
      if size == 0 {
        ok := ResetTranBuf(taken, split);
        taken := offset;
      }
    }

    method Notify(split: Items, ghost q: Parser)
      requires pool.Valid() && Safe(StoreAt(taken, split)) && Bounded(StoreAt(taken, split))
      requires taken == offset && 0 < size && Resumable() && q == Current(StoreAt(taken, split))
      modifies this`held
      ensures Ready() && held == Concat(old(held), split) && ReadableAll(pool.blocks, split)
      ensures q == GivenOut(View(), Outs(pool.blocks, split))
      ensures ReadableAll(pool.blocks, old(held)) && Outs(pool.blocks, old(held)) == old(Outs(pool.blocks, held))
    {
      StoreNotify(StoreAt(taken, split));
      held := Concat(held, split);
    }

    /** The application gets the messages that were split off; if there was no further block
        to be had, they are lost. */
    method Advance(n: nat, split: Items, ghost c: Chunk) returns (result: ReadResult, received: Items)
      requires Working(c, n, StoreAt(taken, split)) && n == |c.bytes| && taken == offset + n && n <= size
      modifies this`tranBuf, this`offset, this`size, this`mine, this`taken, this`held, pool
      ensures Valid() && Elsewhere(c.start, pool.blocks, old(mine)) && result != BrokenStream && Feed(c.v0, c.bytes) != Broken
      ensures pool.refused == old(pool.refused) + if result != OutOfMemory then 0 else 1
      ensures (result == OutOfMemory ==> n == old(size)) && (result == Done ==> MovedOn(n, old(tranBuf), old(offset), old(size)))
      ensures result == Done ==>
                && Ready() && held == Concat(old(held), received) && ReadableAll(pool.blocks, received)
                && Feed(c.v0, c.bytes) == GivenOut(View(), Outs(pool.blocks, received))
      ensures result != Done ==> held == old(held)
      ensures ReadableAll(pool.blocks, old(held)) && Outs(pool.blocks, old(held)) == c.kept
    {
      ghost var m := pool.blocks;
      ChunkSplit(c, StoreAt(taken, split));
      var ok := Refill(n, split);
      ghost var k := pool.blocks;
      ElsewhereTwice(c.start, m, k, old(mine));
      if ok {
        Notify(split, Feed(c.v0, c.bytes));
        result, received := Done, split;
      } else {
        Discard(split);
        ElsewhereTwice(c.start, k, pool.blocks, mine);
        result, received := OutOfMemory, NoItems;
      }
    }

    /** The connection is there: whatever was half received is dropped, and there is a block to
        receive into, unless memory has run out. */
    method OnConnected() returns (ok: bool)
      requires Valid()
      modifies this, pool
      ensures Valid() && held == old(held) && Elsewhere(old(pool.blocks), pool.blocks, old(mine))
      ensures ok ==> Ready() && View() == Start && NewBlock()
      ensures Outs(pool.blocks, held) == old(Outs(pool.blocks, held))
      ensures pool.refused == old(pool.refused) + if ok then 0 else 1
    {
      ghost var m := pool.blocks;
      DropPartial();
      ghost var n := pool.blocks;
      ResetReceivingEnv();
      ok := ResetTranBuf(taken, NoItems);
      taken := offset;
      ElsewhereTwice(m, n, pool.blocks, old(mine));
    }

    /** The message being received is destroyed. */
    method DropPartial()
      requires Valid()
      modifies this`partial, pool`blocks
      ensures Valid() && partial == Nil && Outs(pool.blocks, held) == old(Outs(pool.blocks, held))
      ensures Elsewhere(old(pool.blocks), pool.blocks, mine)
    {
      ghost var s := StoreAt(taken, NoItems);
      ghost var rest := Owners(s.(partial := Nil));
      assert Owners(s) == rest + Named(partial);
      BalancedExact(s);
      Release(partial, rest);
      partial := Nil;
      StoreReleased(s, StoreAt(taken, NoItems));
    }

    /** The application destroys the message it holds at `k`; the others are not affected. */
    method Destroy(k: nat)
      requires Valid() && k < CountAll(held)
      modifies this`held, pool`blocks
      ensures Valid() && held == Without(old(held), k) && Elsewhere(old(pool.blocks), pool.blocks, mine)
      ensures k < |old(Outs(pool.blocks, held))|
      ensures Outs(pool.blocks, held) == old(Outs(pool.blocks, held))[..k] + old(Outs(pool.blocks, held))[k + 1..]
      ensures Flatten(pool.blocks, partial) == old(Flatten(pool.blocks, partial))
    {
      ghost var s := StoreAt(taken, NoItems);
      ghost var t := s.(held := Without(held, k));
      var message := ItemAt(held, k).message;
      WithoutNamed(held, k);
      WithoutOuts(pool.blocks, held, k, tranBuf, taken);
      assert Owners(s) == Owners(t) + Named(message);
      BalancedExact(s);
      Release(message, Owners(t));
      held := Without(held, k);
      StoreReleased(s, StoreAt(taken, NoItems));
    }

    /** The destructor of the stream. What the application holds outlives it. */
    method Dispose()
      requires Valid()
      modifies this`partial, this`tranBuf, this`taken, pool`blocks
      ensures Valid() && partial == Nil && tranBuf == -1 && Elsewhere(old(pool.blocks), pool.blocks, mine)
      ensures Outs(pool.blocks, held) == old(Outs(pool.blocks, held))
    {
      ghost var m := pool.blocks;
      FreeTranBuf(taken, NoItems);
      taken := 0;
      ghost var n := pool.blocks;
      DropPartial();
      ElsewhereTwice(m, n, pool.blocks, mine);
    }

    /** Nothing leaks: without the stream and its messages none of its blocks is left. */
    lemma NothingLeft()
      requires Valid() && tranBuf == -1 && partial == Nil && held == NoItems
      ensures mine !! pool.blocks.Keys
    {
      forall a | a in mine ensures a !in pool.blocks {
        var s := StoreAt(taken, NoItems);
        assert Counted(s.m, s.mine, Owners(s), a);
      }
    }

    /** No block is freed while a message names it, and its count is the number of handles
        that do, and one more for the stream if the block is the current one. */
    lemma CountIsOwners(a: nat)
      requires Valid()
      ensures a in mine ==>
                var n := Named(partial)[a] + NamedAll(held)[a] + if a == tranBuf then 1 else 0;
                (a in pool.blocks <==> 0 < n) && (0 < n ==> pool.blocks[a].refs == n)
    {
      var s := StoreAt(taken, NoItems);
      assert Counted(s.m, s.mine, Owners(s), a);
      assert Owners(s)[a] == Named(partial)[a] + NamedAll(held)[a] + NamedAll(NoItems)[a] + Holding(tranBuf)[a];
    }

    /** The free part is named by no message, neither by one the application holds nor by
        the one being received: the next chunk overwrites nothing. */
    lemma FreePartIsFree(j: nat)
      requires Ready()
      ensures j < Count(partial) ==> KeepsClear(At(partial, j))
      ensures forall k :: 0 <= k < CountAll(held) && j < Count(ItemAt(held, k).message) ==> KeepsClear(At(ItemAt(held, k).message, j))
    {
      if j < Count(partial) { BehindHandle(partial, j, tranBuf, taken); }
      forall k | 0 <= k < CountAll(held) && j < Count(ItemAt(held, k).message)
        ensures KeepsClear(At(ItemAt(held, k).message, j))
      {
        BehindItem(held, k, tranBuf, taken);
        BehindHandle(ItemAt(held, k).message, j, tranBuf, taken);
      }
    }

    /** It names nothing of the current block from `offset` on. */
    predicate KeepsClear(h: BufferHandle)
      reads this`tranBuf, this`offset
    {
      h.data == tranBuf ==> h.span + h.size <= offset
    }
  }

  lemma {:induction false} NamedTake(hs: Handles, k: nat)
    requires k <= Count(hs)
    ensures Named(Take(hs, k)) <= Named(hs) && (k == 0 ==> Named(Take(hs, k)) == multiset{})
  {
    if k < Count(hs) { NamedTake(hs.init, k); }
  }

  lemma NamedStart(hs: Handles, rest: multiset<nat>)
    ensures rest + Named(hs) + Named(Take(hs, 0)) == rest + Named(hs)
  {
    NamedTake(hs, 0);
  }

  lemma NamedNext(hs: Handles, k: nat, rest: multiset<nat>, owners: multiset<nat>)
    requires k < Count(hs) && owners + Named(Take(hs, k)) == rest + Named(hs)
    ensures At(hs, k).data in owners
    ensures (owners - multiset{At(hs, k).data}) + Named(Take(hs, k + 1)) == rest + Named(hs)
  {
    TakeNext(hs, k);
    NamedTake(hs, k + 1);
    var p := At(hs, k).data;
    assert Named(Take(hs, k + 1)) == Named(Take(hs, k)) + multiset{p};
    assert (owners + Named(Take(hs, k)))[p] >= Named(hs)[p] >= Named(Take(hs, k + 1))[p];
  }

  lemma NamedEnd(hs: Handles, rest: multiset<nat>, owners: multiset<nat>)
    requires owners + Named(Take(hs, Count(hs))) == rest + Named(hs)
    ensures owners == rest
  {
    assert Take(hs, Count(hs)) == hs;
    forall a: nat ensures owners[a] == rest[a] {
      assert (owners + Named(hs))[a] == (rest + Named(hs))[a];
    }
  }
}
