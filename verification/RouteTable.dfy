/**
 The entity route table: an interval list edited by the main thread, published as a
 sorted snapshot, and searched by halving.
 */
module RouteTable {
  import opened Options

  const UINT64_MAX := 0xFFFF_FFFF_FFFF_FFFF
  const KINVALID_WORKER := 0xFFFF_FFFF

  type u64 = x: int | 0 <= x <= UINT64_MAX
  type u32 = x: int | 0 <= x <= KINVALID_WORKER

  /** Routes the ids from `begin` up to, but not including, `end`. */
  datatype Entry = Entry(begin: u64, end: u64, worker: u32) {
    predicate Has(id: u64) {
      begin <= id < end
    }
    predicate Overlaps(b: u64, e: u64) {
      !(end <= b || begin >= e)
    }
    predicate Surrounds(b: u64, e: u64) {
      begin < b && end > e
    }
  }

  type Table = seq<Entry>

  // ---- What an interval list means ------------------------------------------------

  /** The worker of the first entry that has `id`. */
  function Find(t: Table, id: u64): Option<u32> {
    if t == [] then None
    else if t[0].Has(id) then Some(t[0].worker)
    else Find(t[1..], id)
  }

  lemma {:induction false} FindAppend(a: Table, b: Table, id: u64)
    ensures Find(a + b, id) == if Find(a, id).Some? then Find(a, id) else Find(b, id)
  {
    if a == [] {
      assert a + b == b;
    } else {
      assert (a + b)[1..] == a[1..] + b;
      FindAppend(a[1..], b, id);
    }
  }

  lemma {:induction false} FindNone(t: Table, id: u64)
    requires forall k :: 0 <= k < |t| ==> !t[k].Has(id)
    ensures Find(t, id) == None
  {
    if t != [] { FindNone(t[1..], id); }
  }

  /** In a list of disjoint entries, it does not matter which entry is found first. */
  lemma {:induction false} FindAny(t: Table, id: u64, k: nat)
    requires Disjoint(t) && k < |t| && t[k].Has(id)
    ensures Find(t, id) == Some(t[k].worker)
  {
    if k > 0 {
      FindAny(t[1..], id, k - 1);
    }
  }

  /** Entries are non-empty and no two share an id. */
  ghost predicate Disjoint(t: Table) {
    && (forall k :: 0 <= k < |t| ==> t[k].begin < t[k].end)
    && (forall i, j :: 0 <= i < j < |t| ==> t[i].end <= t[j].begin || t[j].end <= t[i].begin)
  }

  ghost predicate SameOutside(t: Table, u: Table, b: u64, e: u64) {
    forall id: u64 :: !(b <= id < e) ==> Find(u, id) == Find(t, id)
  }

  /** Replacing entry `k` by entries that agree with it outside [b, e) changes nothing there. */
  lemma ReplaceOutside(t: Table, k: nat, parts: Table, b: u64, e: u64)
    requires k < |t| && SameOutside([t[k]], parts, b, e)
    ensures SameOutside(t, t[..k] + parts + t[k + 1..], b, e)
  {
    forall id: u64 | !(b <= id < e)
      ensures Find(t[..k] + parts + t[k + 1..], id) == Find(t, id)
    {
      FindAppend(t[..k] + parts, t[k + 1..], id);
      FindAppend(t[..k], parts, id);
      FindAppend(t[..k] + [t[k]], t[k + 1..], id);
      FindAppend(t[..k], [t[k]], id);
      assert t == t[..k] + [t[k]] + t[k + 1..];
    }
  }

  /** Parts of an entry are disjoint from whatever the entry was disjoint from. */
  lemma ReplaceDisjoint(t: Table, k: nat, parts: Table)
    requires Disjoint(t) && k < |t| && Disjoint(parts)
    requires forall i :: 0 <= i < |parts| ==> t[k].begin <= parts[i].begin && parts[i].end <= t[k].end
    ensures Disjoint(t[..k] + parts + t[k + 1..])
  {
    var u := t[..k] + parts + t[k + 1..];
    forall i | 0 <= i < |u|
      ensures u[i].begin < u[i].end
    {
      if k <= i < k + |parts| { assert u[i] == parts[i - k]; }
    }
    forall i, j | 0 <= i < j < |u|
      ensures u[i].end <= u[j].begin || u[j].end <= u[i].begin
    {
      var m := |parts|;
      assert u[i] == if i < k then t[i] else if i < k + m then parts[i - k] else t[i - m + 1];
      assert u[j] == if j < k then t[j] else if j < k + m then parts[j - k] else t[j - m + 1];
    }
  }

  /** How many entries reach beyond [b, e) on both sides. */
  function Surrounding(t: Table, b: u64, e: u64): nat {
    if t == [] then 0
    else (if t[0].Surrounds(b, e) then 1 else 0) + Surrounding(t[1..], b, e)
  }

  lemma {:induction false} SurroundingAppend(a: Table, c: Table, b: u64, e: u64)
    ensures Surrounding(a + c, b, e) == Surrounding(a, b, e) + Surrounding(c, b, e)
  {
    if a == [] {
      assert a + c == c;
    } else {
      assert (a + c)[1..] == a[1..] + c;
      SurroundingAppend(a[1..], c, b, e);
    }
  }

  lemma SurroundingParts(x: Table, y: Table, z: Table, b: u64, e: u64)
    ensures Surrounding(x + y + z, b, e) == Surrounding(x, b, e) + Surrounding(y, b, e) + Surrounding(z, b, e)
  {
    SurroundingAppend(x + y, z, b, e);
    SurroundingAppend(x, y, b, e);
  }

  lemma ReplaceSurrounding(t: Table, k: nat, parts: Table, b: u64, e: u64)
    requires k < |t|
    ensures Surrounding(t[..k] + parts + t[k + 1..], b, e)
            == Surrounding(t, b, e) - Surrounding([t[k]], b, e) + Surrounding(parts, b, e)
  {
    var x, z := t[..k], t[k + 1..];
    assert t == x + [t[k]] + z;
    SurroundingParts(x, parts, z, b, e);
    SurroundingParts(x, [t[k]], z, b, e);
  }

  // ---- The snapshot -----------------------------------------------------------------

  ghost predicate SortedByBegin(t: Table) {
    forall i, j :: 0 <= i < j < |t| ==> t[i].begin <= t[j].begin
  }

  /** Sorted, and each entry ends before the next begins. */
  ghost predicate Searchable(t: Table) {
    && (forall k :: 0 <= k < |t| ==> t[k].begin < t[k].end)
    && (forall i, j :: 0 <= i < j < |t| ==> t[i].end <= t[j].begin)
  }

  /** Stands for std::sort: callers learn that the result is sorted and a permutation. */
  method SortByBegin(t: Table) returns (u: Table)
    ensures SortedByBegin(u) && multiset(u) == multiset(t)
  {
    u := [];
    var n := 0;
    while n < |t|
      invariant n <= |t| && SortedByBegin(u) && multiset(u) == multiset(t[..n])
    {
      u := InsertByBegin(u, t[n]);
      assert t[..n + 1] == t[..n] + [t[n]];
      n := n + 1;
    }
    assert t[..n] == t;
  }

  method InsertByBegin(t: Table, e: Entry) returns (u: Table)
    requires SortedByBegin(t)
    ensures SortedByBegin(u) && multiset(u) == multiset(t) + multiset{e}
  {
    var k := |t|;
    while k > 0 && t[k - 1].begin > e.begin
      invariant 0 <= k <= |t| && forall i :: k <= i < |t| ==> e.begin <= t[i].begin
    {
      k := k - 1;
    }
    u := t[..k] + [e] + t[k..];
    InsertSorted(t, k, e);
    InsertSame(t, k, e);
  }

  lemma InsertSame(t: Table, k: nat, e: Entry)
    requires k <= |t|
    ensures multiset(t[..k] + [e] + t[k..]) == multiset(t) + multiset{e}
  {
    assert t == t[..k] + t[k..];
  }

  lemma InsertSorted(t: Table, k: nat, e: Entry)
    requires SortedByBegin(t) && k <= |t| && (k > 0 ==> t[k - 1].begin <= e.begin)
    requires forall i :: k <= i < |t| ==> e.begin <= t[i].begin
    ensures SortedByBegin(t[..k] + [e] + t[k..])
  {
    var u := t[..k] + [e] + t[k..];
    forall i, j | 0 <= i < j < |u|
      ensures u[i].begin <= u[j].begin
    {
      assert u[i] == if i < k then t[i] else if i == k then e else t[i - 1];
      assert u[j] == if j < k then t[j] else if j == k then e else t[j - 1];
    }
  }

  /** Reordering disjoint entries keeps them disjoint and keeps what they mean. */
  lemma PermutedDisjoint(t: Table, u: Table)
    requires Disjoint(t) && multiset(u) == multiset(t)
    ensures Disjoint(u)
    ensures forall id: u64 :: Find(u, id) == Find(t, id)
  {
    forall k | 0 <= k < |u| ensures u[k] in t { assert u[k] in multiset(u); }
    forall i, j | 0 <= i < j < |u|
      ensures u[i].end <= u[j].begin || u[j].end <= u[i].begin
    {
      if u[i] == u[j] {
        TwiceIn(u, i, j);
        OnceIn(t, u[i]);
        assert false;
      }
      var a :| 0 <= a < |t| && t[a] == u[i];
      var b :| 0 <= b < |t| && t[b] == u[j];
    }
    forall id: u64 ensures Find(u, id) == Find(t, id) {
      if k :| 0 <= k < |t| && t[k].Has(id) {
        assert t[k] in multiset(t) && t[k] in u;
        var m :| 0 <= m < |u| && u[m] == t[k];
        FindAny(t, id, k);
        FindAny(u, id, m);
      } else {
        FindNone(t, id);
        FindNone(u, id);
      }
    }
  }

  lemma TwiceIn(t: Table, i: nat, j: nat)
    requires i < j < |t| && t[i] == t[j]
    ensures multiset(t)[t[i]] >= 2
  {
    assert t == t[..j] + t[j..];
    assert t[i] in t[..j] && t[j] in t[j..];
  }

  lemma {:induction false} OnceIn(t: Table, e: Entry)
    requires Disjoint(t)
    ensures multiset(t)[e] <= 1
  {
    if t != [] {
      OnceIn(t[1..], e);
      assert t == [t[0]] + t[1..];
      assert t[0].begin < t[0].end && t[0] !in t[1..];
    }
  }

  /** What one edit of the scan in `Bind` keeps. */
  lemma ReplaceKeeps(t: Table, k: nat, parts: Table, b: u64, e: u64)
    requires k < |t| && Disjoint(t) && Disjoint(parts) && SameOutside([t[k]], parts, b, e)
    requires forall i :: 0 <= i < |parts| ==> t[k].begin <= parts[i].begin && parts[i].end <= t[k].end
    ensures var u := t[..k] + parts + t[k + 1..];
            && Disjoint(u) && SameOutside(t, u, b, e)
            && Surrounding(u, b, e) == Surrounding(t, b, e) - Surrounding([t[k]], b, e) + Surrounding(parts, b, e)
  {
    ReplaceOutside(t, k, parts, b, e);
    ReplaceDisjoint(t, k, parts);
    ReplaceSurrounding(t, k, parts, b, e);
  }

  /** What is left of an entry outside [b, e). */
  function Outside(x: Entry, b: u64, e: u64): Table
  {
    (if x.begin < b then [x.(end := b)] else []) + (if x.end > e then [x.(begin := e)] else [])
  }

  lemma OutsideFacts(x: Entry, b: u64, e: u64)
    requires x.begin < x.end && b < e && x.Overlaps(b, e)
    ensures var parts := Outside(x, b, e);
            && Disjoint(parts) && SameOutside([x], parts, b, e)
            && (forall i :: 0 <= i < |parts| ==> x.begin <= parts[i].begin && parts[i].end <= x.end && !parts[i].Overlaps(b, e))
            && Surrounding(parts, b, e) == 0
            && Surrounding([x], b, e) == if x.Surrounds(b, e) then 1 else 0
  {
    var left, right := if x.begin < b then [x.(end := b)] else [], if x.end > e then [x.(begin := e)] else [];
    SurroundingAppend(left, right, b, e);
    forall id: u64 | !(b <= id < e)
      ensures Find(Outside(x, b, e), id) == Find([x], id)
    {
      FindAppend(left, right, id);
    }
  }

  /** `t` is `t0` with changes inside [b, e) only, and its first `n` entries stay clear of it. */
  ghost predicate Carved(t0: Table, t: Table, n: nat, b: u64, e: u64) {
    && n <= |t| && Disjoint(t) && SameOutside(t0, t, b, e)
    && Surrounding(t, b, e) <= Surrounding(t0, b, e)
    && forall k :: 0 <= k < n ==> !t[k].Overlaps(b, e)
  }

  lemma CarvedAgain(t0: Table, t: Table, u: Table, n: nat, b: u64, e: u64)
    requires Carved(t0, t, 0, b, e) && Carved(t, u, n, b, e)
    ensures Carved(t0, u, n, b, e)
  {
  }

  lemma CarveOne(t0: Table, t: Table, k: nat, b: u64, e: u64)
    requires k < |t| && b < e && Carved(t0, t, k, b, e) && t[k].Overlaps(b, e)
    ensures var u := t[..k] + Outside(t[k], b, e) + t[k + 1..];
            && Carved(t0, u, k + |Outside(t[k], b, e)|, b, e)
            && (t[k].Surrounds(b, e) ==> Surrounding(u, b, e) < Surrounding(t0, b, e))
  {
    OutsideFacts(t[k], b, e);
    ReplaceKeeps(t, k, Outside(t[k], b, e), b, e);
  }

  /** A list means a map when every id is found as the map says. */
  ghost predicate Means(t: Table, m: imap<u64, u32>) {
    forall id: u64 :: Find(t, id) == if id in m then Some(m[id]) else None
  }

  ghost function Bound(m: imap<u64, u32>, b: u64, e: u64, w: u32): imap<u64, u32> {
    imap id: u64 | id in m || b <= id < e :: if b <= id < e then w else m[id]
  }

  ghost function Unbound(m: imap<u64, u32>, i: u64): imap<u64, u32> {
    imap id: u64 | id in m && id != i :: m[id]
  }

  /** Appending an entry over a part of the id space that was cleared binds that part. */
  lemma PushBinds(t: Table, u: Table, m: imap<u64, u32>, entry: Entry)
    requires Means(t, m) && SameOutside(t, u, entry.begin, entry.end) && Disjoint(u) && entry.begin < entry.end
    requires forall k :: 0 <= k < |u| ==> !u[k].Overlaps(entry.begin, entry.end)
    ensures Disjoint(u + [entry]) && Means(u + [entry], Bound(m, entry.begin, entry.end, entry.worker))
  {
    forall id: u64
      ensures Find(u + [entry], id) == if entry.Has(id) then Some(entry.worker) else if id in m then Some(m[id]) else None
    {
      FindAppend(u, [entry], id);
      if entry.Has(id) { FindNone(u, id); }
    }
  }

  /** What is left of an entry without one of its ids. */
  function CutOut(x: Entry, id: u64): Table
    requires x.Has(id)
  {
    if x.begin == id && x.end == id + 1 then []
    else if x.begin == id then [x.(begin := id + 1)]
    else if x.end == id + 1 then [x.(end := id)]
    else [x.(end := id), x.(begin := id + 1)]
  }

  lemma CutOutSame(x: Entry, id: u64)
    requires x.Has(id)
    ensures SameOutside([x], CutOut(x, id), id, id + 1) && Disjoint(CutOut(x, id))
  {
    forall i: u64 | i != id
      ensures Find(CutOut(x, id), i) == Find([x], i)
    {
      FindAppend([x.(end := id)], [x.(begin := if id < UINT64_MAX then id + 1 else id)], i);
    }
  }

  /** Cutting one id out of an entry unbinds it and nothing else. */
  lemma CutUnbinds(t: Table, k: nat, m: imap<u64, u32>, id: u64)
    requires k < |t| && Disjoint(t) && Means(t, m) && t[k].Has(id)
    ensures var u := t[..k] + CutOut(t[k], id) + t[k + 1..];
            Disjoint(u) && Means(u, Unbound(m, id))
  {
    var parts := CutOut(t[k], id);
    var u := t[..k] + parts + t[k + 1..];
    CutOutSame(t[k], id);
    ReplaceKeeps(t, k, parts, id, id + 1);
    forall n | 0 <= n < |u|
      ensures !u[n].Has(id)
    {
      assert u[n] == if n < k then t[n] else if n < k + |parts| then parts[n - k] else t[n - |parts| + 1];
    }
    FindNone(u, id);
  }

  /** The merge in `Freeze`: whatever the sorted list, the result can be searched by
      halving and has the same ids; a list without overlaps comes out as it went in. */
  method MergeOverlaps(t: Table) returns (snapshot: Table)
    requires SortedByBegin(t) && forall k :: 0 <= k < |t| ==> t[k].begin < t[k].end
    ensures Searchable(snapshot)
    ensures forall id: u64 :: Find(snapshot, id).Some? <==> Find(t, id).Some?
    ensures Disjoint(t) ==> snapshot == t
  {
    snapshot := [];
    var n := 0;
    while n < |t|
      invariant 0 <= n <= |t| && Searchable(snapshot)
      invariant snapshot != [] ==> n > 0 && snapshot[|snapshot| - 1].begin <= t[n - 1].begin
      invariant forall id: u64 :: Find(snapshot, id).Some? <==> Find(t[..n], id).Some?
      invariant Disjoint(t) ==> snapshot == t[..n]
    {
      MergeStep(snapshot, t[n]);
      if Disjoint(t) { NoOverlap(t, n); }
      snapshot := Merged(snapshot, t[n]);
      PrefixIds(t, n);
      n := n + 1;
    }
    assert t[..n] == t;
  }

  lemma NoOverlap(t: Table, n: nat)
    requires SortedByBegin(t) && Disjoint(t) && n < |t|
    ensures Merged(t[..n], t[n]) == t[..n + 1]
  {
  }

  lemma PrefixIds(t: Table, n: nat)
    requires n < |t|
    ensures forall id: u64 :: Find(t[..n + 1], id).Some? <==> Find(t[..n], id).Some? || t[n].Has(id)
    ensures t[..n + 1] == t[..n] + [t[n]]
  {
    assert t[..n + 1] == t[..n] + [t[n]];
    forall id: u64 ensures Find(t[..n + 1], id).Some? <==> Find(t[..n], id).Some? || t[n].Has(id) {
      FindAppend(t[..n], [t[n]], id);
    }
  }

  /** The body of the merge loop: an entry that overlaps the last one extends it. */
  function Merged(t: Table, e: Entry): Table {
    if t != [] && t[|t| - 1].end > e.begin then
      var last := t[|t| - 1];
      t[..|t| - 1] + [Entry(last.begin, if last.end < e.end then e.end else last.end, e.worker)]
    else t + [e]
  }

  lemma MergeStep(t: Table, e: Entry)
    requires e.begin < e.end && Searchable(t)
    requires t != [] ==> t[|t| - 1].begin <= e.begin
    ensures Searchable(Merged(t, e))
    ensures forall id: u64 :: Find(Merged(t, e), id).Some? <==> Find(t, id).Some? || e.Has(id)
  {
    MergeSearchable(t, e);
    forall id: u64 ensures Find(Merged(t, e), id).Some? <==> Find(t, id).Some? || e.Has(id) {
      MergeIds(t, e, id);
    }
  }

  lemma MergeSearchable(t: Table, e: Entry)
    requires e.begin < e.end && Searchable(t)
    requires t != [] ==> t[|t| - 1].begin <= e.begin
    ensures Searchable(Merged(t, e))
  {
  }

  lemma MergeIds(t: Table, e: Entry, id: u64)
    requires e.begin < e.end && Searchable(t)
    requires t != [] ==> t[|t| - 1].begin <= e.begin
    ensures Find(Merged(t, e), id).Some? <==> Find(t, id).Some? || e.Has(id)
  {
    if t != [] && t[|t| - 1].end > e.begin {
      var front, last := t[..|t| - 1], t[|t| - 1];
      assert t == front + [last];
      FindAppend(front, [last], id);
      FindAppend(front, [Entry(last.begin, if last.end < e.end then e.end else last.end, e.worker)], id);
    } else {
      FindAppend(t, [e], id);
    }
  }

  /** No half-open range of 64-bit bounds reaches the largest id. */
  lemma {:induction false} LargestUnrouted(t: Table)
    ensures Find(t, UINT64_MAX) == None
  {
    if t != [] { LargestUnrouted(t[1..]); }
  }

  // ---- The table ---------------------------------------------------------------------

  class LockFreeRouteTable {
    var pending: Table
    var current: Option<Table>
    var retired: Option<Table>
    ghost var routes: imap<u64, u32>     // what has been bound
    ghost var published: imap<u64, u32>  // what had been bound when Freeze was last called

    ghost predicate Valid()
      reads this
    {
      && Disjoint(pending) && Means(pending, routes)
      && (current.Some? ==> Searchable(current.value) && Means(current.value, published))
      && (current.None? ==> published == imap[])
    }

    constructor ()
      ensures Valid() && routes == imap[] && published == imap[]
    {
      pending, current, retired := [], None, None;
      routes, published := imap[], imap[];
    }

    /** Binds [b, e). An empty range binds nothing; a later binding wins over earlier ones. */
    method Bind(b: u64, e: u64, worker: u32)
      requires Valid()
      modifies this`pending, this`routes
      ensures Valid()
      ensures routes == if b < e then Bound(old(routes), b, e, worker) else old(routes)
    {
      if b >= e { return; }
      var restart := true;
      while restart
        invariant routes == old(routes) && Carved(old(pending), pending, if restart then 0 else |pending|, b, e)
        decreases Surrounding(pending, b, e), restart
      {
        ghost var before := pending;
        restart := Scan(b, e);
        CarvedAgain(old(pending), before, pending, if restart then 0 else |pending|, b, e);
      }
      PushBinds(old(pending), pending, routes, Entry(b, e, worker));
      pending := pending + [Entry(b, e, worker)];
      routes := Bound(routes, b, e, worker);
    }

    /** One pass over the list: clears [b, e), or splits the entry that surrounds it and
        asks for another pass. */
    method Scan(b: u64, e: u64) returns (restart: bool)
      requires Disjoint(pending) && b < e
      modifies this`pending
      ensures Carved(old(pending), pending, if restart then 0 else |pending|, b, e)
      ensures restart ==> Surrounding(pending, b, e) < Surrounding(old(pending), b, e)
    {
      var it := 0;
      while it < |pending|
        invariant 0 <= it <= |pending| && Carved(old(pending), pending, it, b, e)
        decreases |pending| - it
      {
        var x := pending[it];
        if x.end <= b || x.begin >= e {
          it := it + 1;
        } else if x.begin < b && x.end > e {
          Replace(it, [x.(end := b), x.(begin := e)], b, e, old(pending));
          return true;
        } else if x.begin < b {
          Replace(it, [x.(end := b)], b, e, old(pending));
          it := it + 1;
        } else if x.end > e {
          Replace(it, [x.(begin := e)], b, e, old(pending));
          it := it + 1;
        } else {
          Replace(it, [], b, e, old(pending));
        }
      }
      restart := false;
    }

    /** Puts `parts` in the place of entry `k`: an assignment to its ends, an insert or an erase. */
    method Replace(k: nat, parts: Table, ghost b: u64, ghost e: u64, ghost t0: Table)
      requires k < |pending| && b < e && Carved(t0, pending, k, b, e)
      requires pending[k].Overlaps(b, e) && parts == Outside(pending[k], b, e)
      modifies this`pending
      ensures |pending| == |old(pending)| + |parts| - 1
      ensures Carved(t0, pending, k + |parts|, b, e) && Carved(t0, pending, 0, b, e)
      ensures old(pending)[k].Surrounds(b, e) ==> Surrounding(pending, b, e) < Surrounding(t0, b, e)
    {
      CarveOne(t0, pending, k, b, e);
      pending := pending[..k] + parts + pending[k + 1..];
    }

    /** Binds one id. `id + 1` is computed in 64 bits, so the largest id is never bound. */
    method BindSingle(id: u64, worker: u32)
      requires Valid()
      modifies this`pending, this`routes
      ensures Valid()
      ensures routes == if id < UINT64_MAX then Bound(old(routes), id, id + 1, worker) else old(routes)
      ensures (id in routes && routes[id] == worker) <==> id < UINT64_MAX
    {
      if id == UINT64_MAX { LargestUnrouted(pending); }
      Bind(id, (id + 1) % (UINT64_MAX + 1), worker);
    }

    method Unbind(id: u64)
      requires Valid()
      modifies this`pending, this`routes
      ensures Valid() && routes == Unbound(old(routes), id)
    {
      var it := 0;
      while it < |pending|
        invariant 0 <= it <= |pending| && forall k :: 0 <= k < it ==> !pending[k].Has(id)
      {
        var x := pending[it];
        if x.Has(id) {
          var parts := CutOut(x, id);
          CutUnbinds(pending, it, routes, id);
          pending := pending[..it] + parts + pending[it + 1..];
          routes := Unbound(routes, id);
          return;
        }
        it := it + 1;
      }
      FindNone(pending, id);
      assert id !in routes;
      assert routes == Unbound(routes, id);
    }

    /** Sorts the list, publishes a copy of it and retires the previous one. */
    method Freeze()
      requires Valid()
      modifies this
      ensures Valid() && routes == old(routes) && published == routes && retired == old(current)
    {
      var sorted := SortByBegin(pending);
      PermutedDisjoint(pending, sorted);
      pending := sorted;
      var snapshot := MergeOverlaps(pending);
      retired := current;
      current := Some(snapshot);
      published := routes;
    }

    /** Finds the last entry that begins at or before `id`, by halving. */
    method Lookup(id: u64) returns (worker: u32)
      requires Valid()
      ensures worker == if id in published then published[id] else KINVALID_WORKER
    {
      if current.None? || current.value == [] { return KINVALID_WORKER; }
      var table := current.value;
      var lo, hi := 0, |table|;
      while lo < hi
        invariant 0 <= lo <= hi <= |table|
        invariant forall k :: 0 <= k < lo ==> table[k].begin <= id
        invariant forall k :: hi <= k < |table| ==> id < table[k].begin
      {
        var mid := (lo + hi) / 2;
        if id < table[mid].begin { hi := mid; } else { lo := mid + 1; }
      }
      if lo > 0 && table[lo - 1].Has(id) {
        FindAny(table, id, lo - 1);
        return table[lo - 1].worker;
      }
      FindNone(table, id);
      return KINVALID_WORKER;
    }
  }

  // ---- Whole runs ----------------------------------------------------------------------

  datatype Op = BindOp(b: u64, e: u64, worker: u32) | BindSingleOp(id: u64, worker: u32) | UnbindOp(id: u64) | FreezeOp

  /** The plain map, updated point by point. */
  ghost function Applied(m: imap<u64, u32>, op: Op): imap<u64, u32> {
    match op
    case BindOp(b, e, w) => imap id: u64 | id in m || b <= id < e :: if b <= id < e then w else m[id]
    case BindSingleOp(i, w) => imap id: u64 | id in m || (id == i && i < UINT64_MAX) :: if id == i && i < UINT64_MAX then w else m[id]
    case UnbindOp(i) => imap id: u64 | id in m && id != i :: m[id]
    case FreezeOp => m
  }

  ghost function RoutesAfter(ops: seq<Op>): imap<u64, u32> {
    if ops == [] then imap[] else Applied(RoutesAfter(ops[..|ops| - 1]), ops[|ops| - 1])
  }

  /** The operations up to and including the last Freeze. */
  ghost function Frozen(ops: seq<Op>): seq<Op> {
    if ops == [] then []
    else if ops[|ops| - 1].FreezeOp? then ops
    else Frozen(ops[..|ops| - 1])
  }

  lemma AppliedIs(m: imap<u64, u32>, op: Op)
    ensures op.BindOp? ==> Applied(m, op) == if op.b < op.e then Bound(m, op.b, op.e, op.worker) else m
    ensures op.BindSingleOp? ==> Applied(m, op) == if op.id < UINT64_MAX then Bound(m, op.id, op.id + 1, op.worker) else m
    ensures op.UnbindOp? ==> Applied(m, op) == Unbound(m, op.id)
  {
  }

  lemma OneMore(ops: seq<Op>, n: nat)
    requires n < |ops|
    ensures RoutesAfter(ops[..n + 1]) == Applied(RoutesAfter(ops[..n]), ops[n])
    ensures Frozen(ops[..n + 1]) == if ops[n].FreezeOp? then ops[..n + 1] else Frozen(ops[..n])
  {
    assert ops[..n + 1][..n] == ops[..n];
  }

  /** After any operations, every lookup answers with the plain map as of the last Freeze. */
  method LookupAfter(ops: seq<Op>, id: u64) returns (worker: u32)
    ensures var m := RoutesAfter(Frozen(ops)); worker == if id in m then m[id] else KINVALID_WORKER
  {
    var t := new LockFreeRouteTable();
    var n := 0;
    while n < |ops|
      invariant 0 <= n <= |ops| && fresh(t) && t.Valid()
      invariant t.routes == RoutesAfter(ops[..n]) && t.published == RoutesAfter(Frozen(ops[..n]))
    {
      OneMore(ops, n);
      AppliedIs(t.routes, ops[n]);
      match ops[n] {
        case BindOp(b, e, w) => t.Bind(b, e, w);
        case BindSingleOp(i, w) => t.BindSingle(i, w);
        case UnbindOp(i) => t.Unbind(i);
        case FreezeOp => t.Freeze();
      }
      n := n + 1;
    }
    assert ops[..n] == ops;
    worker := t.Lookup(id);
  }
}
