/**
 Publishing and reclaiming route snapshots while readers search them. The writer edits its
 list, and its Freeze builds a snapshot in memory entry by entry, exchanges, deletes and
 retires; a reader loads the published pointer and halves its way through whatever is in
 memory there. Any number of readers interleave with the writer, one access at a time, and
 memory that was given back may be handed out again.
 */
module RouteReclamation {
  import opened Options
  import opened RouteTable

  type Pointer = Option<nat>

  /** A table in memory, with the number of the Freeze that allocated it. */
  datatype Cell = Cell(freeze: nat, table: Table)

  /** What a Freeze published: where, what, and the map as the writer had edited it. */
  datatype Publication = Publication(address: nat, table: Table, routes: imap<u64, u32>)

  datatype Writer =
    | Idle
    | Building(snapshot: nat, sorted: Table, next: nat)
    | Exchanged(old_: Pointer)
    | Deleted(old_: Pointer)

  /** `Undefined` after an access to memory that is not there. */
  datatype Phase = Loaded | Halving(lo: nat, hi: nat) | Done(worker: u32) | Undefined

  /** A lookup of `id`; `freeze` is the number of Freezes that had published at its load. */
  datatype Reader = Reader(freeze: nat, table: Pointer, id: u64, phase: Phase)

  datatype State = State(
    heap: map<nat, Cell>, current: Pointer, retired: Pointer, writer: Writer,
    routes: imap<u64, u32>, history: seq<Publication>, readers: map<nat, Reader>)

  /** `Sort` sorts the list and allocates the snapshot; `PushBack` is one round of the loop
      that fills it. */
  datatype Step =
    | Edit(op: Op) | Sort(address: nat, sorted: Table) | PushBack | Exchange | DeleteRetired | Retire
    | Load(reader: nat, id: u64) | Probe(reader: nat)

  ghost const Start := State(map[], None, None, Idle, imap[], [], map[])

  ghost predicate Enabled(s: State, step: Step) {
    match step
    case Edit(op) => s.writer.Idle? && !op.FreezeOp?
    case Sort(a, sorted) =>
      s.writer.Idle? && a !in s.heap && SortedByBegin(sorted) && Disjoint(sorted) && Means(sorted, s.routes)
    case PushBack => s.writer.Building? && s.writer.next < |s.writer.sorted| && s.writer.snapshot in s.heap
    case Exchange => s.writer.Building? && s.writer.next == |s.writer.sorted| && s.writer.snapshot in s.heap
    case DeleteRetired => s.writer.Exchanged?
    case Retire => s.writer.Deleted?
    case Load(_, _) => true
    case Probe(r) => r in s.readers && !s.readers[r].phase.Done? && !s.readers[r].phase.Undefined?
  }

  ghost function Do(s: State, step: Step): State
    requires Enabled(s, step)
  {
    match step
    case Edit(op) => s.(routes := Applied(s.routes, op))
    case Sort(a, sorted) => s.(heap := s.heap[a := Cell(|s.history| + 1, [])], writer := Building(a, sorted, 0))
    case PushBack =>
      var w, cell := s.writer, s.heap[s.writer.snapshot];
      s.(heap := s.heap[w.snapshot := cell.(table := Merged(cell.table, w.sorted[w.next]))], writer := w.(next := w.next + 1))
    case Exchange =>
      var a := s.writer.snapshot;
      s.(history := s.history + [Publication(a, s.heap[a].table, s.routes)], current := Some(a), writer := Exchanged(s.current))
    case DeleteRetired =>
      s.(heap := if s.retired.Some? then s.heap - {s.retired.value} else s.heap, writer := Deleted(s.writer.old_))
    case Retire => s.(retired := s.writer.old_, writer := Idle)
    case Load(r, id) => s.(readers := s.readers[r := Reader(|s.history|, s.current, id, Loaded)])
    case Probe(r) => s.(readers := s.readers[r := Probed(s.heap, s.readers[r])])
  }

  /** One access of a lookup to what is now where its pointer points. */
  function Probed(heap: map<nat, Cell>, r: Reader): Reader {
    if r.table.None? then r.(phase := Done(KINVALID_WORKER))
    else if r.table.value !in heap then r.(phase := Undefined)
    else r.(phase := ProbedIn(heap[r.table.value].table, r.id, r.phase))
  }

  function Middle(lo: nat, hi: nat): (m: nat)
    requires lo < hi
    ensures lo <= m < hi
  {
    (lo + hi) / 2
  }

  function ProbedIn(t: Table, id: u64, phase: Phase): Phase {
    match phase
    case Loaded => if t == [] then Done(KINVALID_WORKER) else Halving(0, |t|)
    case Halving(lo, hi) =>
      if lo < hi then
        var mid := Middle(lo, hi);
        if mid >= |t| then Undefined
        else if id < t[mid].begin then Halving(lo, mid)
        else Halving(mid + 1, hi)
      else if lo == 0 then Done(KINVALID_WORKER)
      else if lo > |t| then Undefined
      else Done(if t[lo - 1].Has(id) then t[lo - 1].worker else KINVALID_WORKER)
    case _ => phase
  }

  ghost predicate Runs(steps: seq<Step>)
    decreases |steps|, 0
  {
    steps == [] || (Runs(steps[..|steps| - 1]) && Enabled(After(steps[..|steps| - 1]), steps[|steps| - 1]))
  }

  ghost function After(steps: seq<Step>): State
    requires Runs(steps)
    decreases |steps|, 1
  {
    if steps == [] then Start else Do(After(steps[..|steps| - 1]), steps[|steps| - 1])
  }

  // ---- What every interleaving keeps ---------------------------------------------------

  /** Snapshot `n` has outlived itself: two later Freezes have published, and the second
      of them has passed its delete. */
  ghost predicate Reclaimed(s: State, n: nat) {
    |s.history| > n + 2 || (|s.history| == n + 2 && !s.writer.Exchanged?)
  }

  /** The snapshot of the n-th Freeze is in memory as it was published. */
  ghost predicate Kept(s: State, n: nat)
    requires 1 <= n <= |s.history|
  {
    var p := s.history[n - 1];
    p.address in s.heap && s.heap[p.address] == Cell(n, p.table)
  }

  /** Where the n-th Freeze published (the null pointer before the first). */
  ghost function PointerOf(s: State, n: int): Pointer
    requires n <= |s.history|
  {
    if n <= 0 then None else Some(s.history[n - 1].address)
  }

  ghost predicate WriterInv(s: State) {
    var n := |s.history|;
    && s.current == PointerOf(s, n)
    && match s.writer
       case Idle => s.retired == PointerOf(s, n - 1)
       case Building(a, sorted, next) =>
         && s.retired == PointerOf(s, n - 1)
         && next <= |sorted| && a in s.heap && s.heap[a] == Cell(n + 1, sorted[..next])
         && Sortable(sorted, s.routes)
       case Exchanged(o) => n > 0 && s.retired == PointerOf(s, n - 2) && o == PointerOf(s, n - 1)
       case Deleted(o) => n > 0 && o == PointerOf(s, n - 1)
  }

  ghost predicate Sortable(sorted: Table, routes: imap<u64, u32>) {
    SortedByBegin(sorted) && Disjoint(sorted) && Means(sorted, routes)
  }

  /** A publication can be searched by halving and means its map. */
  ghost predicate Right(p: Publication) {
    Searchable(p.table) && Means(p.table, p.routes)
  }

  /** Memory holds the snapshots that are not reclaimed, and the one being built. */
  ghost predicate HeapInv(s: State) {
    && (forall n :: 1 <= n <= |s.history| && !Reclaimed(s, n) ==> Kept(s, n))
    && (forall a :: a in s.heap ==> CellInv(s, a, s.heap[a].freeze))
  }

  ghost predicate CellInv(s: State, a: nat, n: nat) {
    if n <= |s.history| then 1 <= n && !Reclaimed(s, n) && s.history[n - 1].address == a
    else n == |s.history| + 1 && s.writer.Building? && s.writer.snapshot == a
  }

  /** A lookup whose snapshot is not reclaimed is on its way to the answer of that snapshot. */
  ghost predicate ReaderInv(s: State, r: Reader) {
    && r.freeze <= |s.history| && r.table == PointerOf(s, r.freeze)
    && (!Reclaimed(s, r.freeze) ==>
          if r.freeze == 0 then r.phase == Loaded || r.phase == Done(KINVALID_WORKER)
          else Narrowed(s.history[r.freeze - 1], r.id, r.phase))
  }

  function Answer(routes: imap<u64, u32>, id: u64): u32 {
    if id in routes then routes[id] else KINVALID_WORKER
  }

  ghost predicate Narrowed(p: Publication, id: u64, phase: Phase) {
    match phase
    case Loaded => true
    case Halving(lo, hi) =>
      && lo <= hi <= |p.table|
      && (forall k :: 0 <= k < lo ==> p.table[k].begin <= id)
      && (forall k :: hi <= k < |p.table| ==> id < p.table[k].begin)
    case Done(w) => w == Answer(p.routes, id)
    case Undefined => false
  }

  ghost predicate Inv(s: State) {
    && WriterInv(s) && HeapInv(s)
    && (forall n :: 0 <= n < |s.history| ==> Right(s.history[n]))
    && (forall r :: r in s.readers ==> ReaderInv(s, s.readers[r]))
  }

  /** How many accesses to a table of this size a lookup still needs. */
  function Left(size: nat, phase: Phase): nat {
    match phase
    case Loaded => size + 2
    case Halving(lo, hi) => (if lo < hi then hi - lo else 0) + 1
    case _ => 0
  }

  /** When the halves meet, the last entry that begins at or before `id` has it or none does. */
  lemma HalvesMeet(p: Publication, id: u64, n: nat)
    requires Right(p) && Narrowed(p, id, Halving(n, n))
    ensures Answer(p.routes, id) == if n > 0 && p.table[n - 1].Has(id) then p.table[n - 1].worker else KINVALID_WORKER
  {
    if n > 0 && p.table[n - 1].Has(id) {
      FindAny(p.table, id, n - 1);
    } else {
      FindNone(p.table, id);
    }
  }

  /** Reading a snapshot that is as it was published leads to the answer of its map. */
  lemma ProbeNarrows(p: Publication, id: u64, phase: Phase)
    requires Right(p) && Narrowed(p, id, phase)
    ensures Narrowed(p, id, ProbedIn(p.table, id, phase))
    ensures !phase.Done? ==> Left(|p.table|, ProbedIn(p.table, id, phase)) < Left(|p.table|, phase)
  {
    if p.table == [] {
      HalvesMeet(p, id, 0);
    } else if phase.Halving? && phase.lo >= phase.hi {
      HalvesMeet(p, id, phase.lo);
    } else if phase.Halving? {
      assert p.table[Middle(phase.lo, phase.hi)].begin <= id || id < p.table[Middle(phase.lo, phase.hi)].begin;
    }
  }

  /** What there is to rely on for a lookup: its snapshot, unless that is reclaimed. */
  ghost predicate Supplied(s: State, r: Reader) {
    && ReaderInv(s, r)
    && (r.freeze > 0 && !Reclaimed(s, r.freeze) ==> Kept(s, r.freeze) && Right(s.history[r.freeze - 1]))
  }

  lemma ReaderSupplied(s: State, r: nat)
    requires Inv(s) && r in s.readers
    ensures Supplied(s, s.readers[r])
  {
    assert ReaderInv(s, s.readers[r]);
  }

  lemma ProbeKeeps(s: State, r: Reader)
    requires Supplied(s, r)
    ensures ReaderInv(s, Probed(s.heap, r))
    ensures !Reclaimed(s, r.freeze) && !r.phase.Done? ==>
              if r.freeze == 0 then Probed(s.heap, r).phase.Done?
              else Left(|s.history[r.freeze - 1].table|, Probed(s.heap, r).phase) < Left(|s.history[r.freeze - 1].table|, r.phase)
  {
    if r.freeze > 0 && !Reclaimed(s, r.freeze) {
      ProbeNarrows(s.history[r.freeze - 1], r.id, r.phase);
    }
  }

  /** Filling the snapshot copies the sorted list; being disjoint, it is never merged. */
  lemma PushKeeps(sorted: Table, routes: imap<u64, u32>, n: nat)
    requires Sortable(sorted, routes) && n < |sorted|
    ensures Merged(sorted[..n], sorted[n]) == sorted[..n + 1]
  {
    NoOverlap(sorted, n);
  }

  lemma BuiltIsRight(sorted: Table, routes: imap<u64, u32>, address: nat)
    requires Sortable(sorted, routes)
    ensures Right(Publication(address, sorted, routes))
  {
  }

  lemma WriterStepKeeps(s: State, step: Step)
    requires Inv(s) && Enabled(s, step)
    ensures WriterInv(Do(s, step))
  {
    if step.PushBack? { PushKeeps(s.writer.sorted, s.routes, s.writer.next); }
  }

  /** Only the publication and the delete change what is reclaimed. */
  lemma ReclaimedStep(s: State, step: Step, n: nat)
    requires Enabled(s, step) && n <= |s.history|
    ensures Reclaimed(Do(s, step), n) <==> Reclaimed(s, n) || (step.DeleteRetired? && n + 2 == |s.history|)
  {
  }

  lemma KeptStep(s: State, step: Step, n: nat)
    requires WriterInv(s) && Enabled(s, step) && 1 <= n <= |s.history| && Kept(s, n) && !Reclaimed(Do(s, step), n)
    requires step.DeleteRetired? && |s.history| > 2 ==> Kept(s, |s.history| - 2)
    ensures Kept(Do(s, step), n)
  {
    ReclaimedStep(s, step, n);
  }

  lemma CellStep(s: State, step: Step, a: nat)
    requires WriterInv(s) && Enabled(s, step) && a in s.heap && a in Do(s, step).heap && CellInv(s, a, s.heap[a].freeze)
    ensures CellInv(Do(s, step), a, Do(s, step).heap[a].freeze)
  {
    if s.heap[a].freeze <= |s.history| { ReclaimedStep(s, step, s.heap[a].freeze); }
  }

  lemma HeapStepKeeps(s: State, step: Step)
    requires Inv(s) && Enabled(s, step)
    ensures HeapInv(Do(s, step))
  {
    var s' := Do(s, step);
    forall n | 1 <= n <= |s'.history| && !Reclaimed(s', n) ensures Kept(s', n) {
      if n <= |s.history| {
        ReclaimedStep(s, step, n);
        assert step.DeleteRetired? && |s.history| > 2 ==> Kept(s, |s.history| - 2);
        KeptStep(s, step, n);
      }
    }
    forall a | a in s'.heap ensures CellInv(s', a, s'.heap[a].freeze) {
      if a in s.heap {
        assert CellInv(s, a, s.heap[a].freeze);
        CellStep(s, step, a);
      }
    }
  }

  lemma HistoryStepKeeps(s: State, step: Step)
    requires Inv(s) && Enabled(s, step)
    ensures forall n :: 0 <= n < |Do(s, step).history| ==> Right(Do(s, step).history[n])
  {
    if step.Exchange? {
      var w := s.writer;
      assert w.sorted[..w.next] == w.sorted;
      BuiltIsRight(w.sorted, s.routes, w.snapshot);
    }
  }

  lemma OtherReaderKeeps(s: State, step: Step, r: Reader)
    requires WriterInv(s) && Enabled(s, step) && ReaderInv(s, r)
    ensures ReaderInv(Do(s, step), r)
  {
    ReclaimedStep(s, step, r.freeze);
  }

  lemma ReaderStepKeeps(s: State, step: Step, r: nat)
    requires Inv(s) && Enabled(s, step) && r in Do(s, step).readers
    ensures ReaderInv(Do(s, step), Do(s, step).readers[r])
  {
    if step == Probe(r) {
      ReaderSupplied(s, r);
      ProbeKeeps(s, s.readers[r]);
      OtherReaderKeeps(s, step, Probed(s.heap, s.readers[r]));
    } else if !step.Load? || step.reader != r {
      assert ReaderInv(s, s.readers[r]);
      OtherReaderKeeps(s, step, s.readers[r]);
    }
  }

  lemma StepKeeps(s: State, step: Step)
    requires Inv(s) && Enabled(s, step)
    ensures Inv(Do(s, step))
  {
    WriterStepKeeps(s, step);
    HeapStepKeeps(s, step);
    HistoryStepKeeps(s, step);
    forall r | r in Do(s, step).readers ensures ReaderInv(Do(s, step), Do(s, step).readers[r]) {
      ReaderStepKeeps(s, step, r);
    }
  }

  lemma {:induction false} Invariant(steps: seq<Step>)
    requires Runs(steps)
    ensures Inv(After(steps))
  {
    if steps == [] {
    } else {
      Invariant(steps[..|steps| - 1]);
      StepKeeps(After(steps[..|steps| - 1]), steps[|steps| - 1]);
    }
  }

  // ---- What a lookup can rely on ---------------------------------------------------------

  /** In every interleaving, a snapshot is in memory as published exactly until the second
      later Freeze passes its delete, even if its place is handed out again. */
  lemma SnapshotLiveUntilSecondFreeze(steps: seq<Step>, n: nat)
    requires Runs(steps) && 1 <= n <= |After(steps).history|
    ensures var s := After(steps);
            Kept(s, n) <==> |s.history| < n + 2 || (|s.history| == n + 2 && s.writer.Exchanged?)
  {
    Invariant(steps);
    var s := After(steps);
    if Kept(s, n) { assert CellInv(s, s.history[n - 1].address, n); }
  }

  /** What has been published is never published differently. */
  lemma {:induction false} HistoryGrows(steps: seq<Step>, k: nat)
    requires Runs(steps) && k <= |steps| && Runs(steps[..k])
    ensures After(steps[..k]).history <= After(steps).history
  {
    if k == |steps| {
      assert steps[..k] == steps;
    } else {
      var shorter := steps[..|steps| - 1];
      assert shorter[..k] == steps[..k];
      HistoryGrows(shorter, k);
    }
  }

  /** A table that has been published is never written again while it is in memory, though
      the writer goes on writing tables there. */
  lemma SnapshotNeverChanges(steps: seq<Step>, k: nat, a: nat)
    requires Runs(steps) && k <= |steps| && Runs(steps[..k])
    requires a in After(steps[..k]).heap && 1 <= After(steps[..k]).heap[a].freeze <= |After(steps[..k]).history|
    requires a in After(steps).heap && After(steps).heap[a].freeze == After(steps[..k]).heap[a].freeze
    ensures After(steps).heap[a].table == After(steps[..k]).heap[a].table
  {
    var s, s' := After(steps[..k]), After(steps);
    var n := s.heap[a].freeze;
    Invariant(steps[..k]);
    Invariant(steps);
    HistoryGrows(steps, k);
    assert CellInv(s, a, n) && CellInv(s', a, n);
    assert Kept(s, n) && Kept(s', n);
  }

  lemma {:induction false} StillReading(steps: seq<Step>, k: nat, r: nat, id: u64)
    requires Runs(steps) && k < |steps| && steps[k] == Load(r, id) && Runs(steps[..k])
    requires forall i :: k < i < |steps| && steps[i].Load? ==> steps[i].reader != r
    ensures r in After(steps).readers
    ensures var reader := After(steps).readers[r];
            reader.id == id && reader.freeze == |After(steps[..k]).history| && reader.table == After(steps[..k]).current
  {
    var shorter := steps[..|steps| - 1];
    if k < |shorter| {
      assert shorter[..k] == steps[..k];
      StillReading(shorter, k, r, id);
      assert steps[|steps| - 1].Load? ==> steps[|steps| - 1].reader != r;
    }
  }

  /** What the writer has edited into its list. */
  ghost function Edits(steps: seq<Step>): seq<Op> {
    if steps == [] then []
    else
      var earlier, last := Edits(steps[..|steps| - 1]), steps[|steps| - 1];
      if last.Edit? then earlier + [last.op] else earlier
  }

  /** The plain map as of the last publication. */
  ghost function Published(steps: seq<Step>): imap<u64, u32> {
    if steps == [] then imap[]
    else if steps[|steps| - 1].Exchange? then RoutesAfter(Edits(steps))
    else Published(steps[..|steps| - 1])
  }

  ghost function LatestRoutes(history: seq<Publication>): imap<u64, u32> {
    if history == [] then imap[] else history[|history| - 1].routes
  }

  lemma {:induction false} PublishedIs(steps: seq<Step>)
    requires Runs(steps)
    ensures var s := After(steps);
            && s.routes == RoutesAfter(Edits(steps))
            && Published(steps) == LatestRoutes(s.history)
  {
    if steps == [] {
    } else {
      var shorter, last := steps[..|steps| - 1], steps[|steps| - 1];
      PublishedIs(shorter);
      if last.Edit? { assert Edits(steps)[..|Edits(steps)| - 1] == Edits(shorter); }
    }
  }

  /** `history` is what had been published when the lookup loaded. */
  lemma SuppliedAnswers(s: State, r: Reader, history: seq<Publication>)
    requires Supplied(s, r) && history <= s.history && r.freeze == |history| && !Reclaimed(s, r.freeze)
    ensures !r.phase.Undefined? && r.table == PointerOf(s, |history|) && (history != [] ==> Kept(s, |history|))
    ensures r.phase.Done? ==> r.phase.worker == Answer(LatestRoutes(history), r.id)
  {
  }

  /** A lookup that has loaded after `k` steps, interleaved with the writer in any way: as
      long as at most one Freeze has published since (and until a second one deletes), the
      table it searches is in memory as it was published; it never accesses memory that is not
      there; and what it returns is what the map published last before its load says. */
  lemma LookupAnswersOneSnapshot(steps: seq<Step>, k: nat, r: nat, id: u64)
    requires Runs(steps) && k < |steps| && steps[k] == Load(r, id) && Runs(steps[..k])
    requires forall i :: k < i < |steps| && steps[i].Load? ==> steps[i].reader != r
    ensures r in After(steps).readers && After(steps[..k]).history <= After(steps).history
    ensures var s, n, reader := After(steps), |After(steps[..k]).history|, After(steps).readers[r];
            |s.history| < n + 2 || (|s.history| == n + 2 && s.writer.Exchanged?) ==>
              && !reader.phase.Undefined?
              && reader.table == PointerOf(s, n) && (n > 0 ==> Kept(s, n))
              && (reader.phase.Done? ==> reader.phase.worker == Answer(Published(steps[..k]), id))
  {
    Invariant(steps);
    PublishedIs(steps[..k]);
    HistoryGrows(steps, k);
    StillReading(steps, k, r, id);
    ReaderSupplied(After(steps), r);
    if !Reclaimed(After(steps), |After(steps[..k]).history|) {
      SuppliedAnswers(After(steps), After(steps).readers[r], After(steps[..k]).history);
    }
  }

  /** The access leaves the lookup fewer, or none where nothing had been published. */
  ghost predicate GetsOn(s: State, r: Reader) {
    var next := Probed(s.heap, r).phase;
    if r.freeze == 0 || r.freeze > |s.history| then next.Done?
    else Left(|s.history[r.freeze - 1].table|, next) < Left(|s.history[r.freeze - 1].table|, r.phase)
  }

  lemma SuppliedGetsOn(s: State, r: Reader)
    requires Supplied(s, r) && !Reclaimed(s, r.freeze) && !r.phase.Done?
    ensures GetsOn(s, r)
  {
    ProbeKeeps(s, r);
  }

  /** A lookup waits for nobody: whatever the writer does meanwhile, each access to its
      snapshot leaves it fewer of them. */
  lemma ProbeGetsOn(steps: seq<Step>, r: nat)
    requires Runs(steps) && r in After(steps).readers
    requires var s := After(steps); !s.readers[r].phase.Done? && !Reclaimed(s, s.readers[r].freeze)
    ensures GetsOn(After(steps), After(steps).readers[r])
  {
    Invariant(steps);
    ReaderSupplied(After(steps), r);
    SuppliedGetsOn(After(steps), After(steps).readers[r]);
  }

  /** The bound is tight: a lookup that overlaps two Freezes can be left to search a table
      that has been deleted. */
  lemma TwoFreezesReclaim(id: u64) returns (steps: seq<Step>)
    ensures Runs(steps) && |After(steps).history| == 3
    ensures 7 in After(steps).readers && After(steps).readers[7] == Reader(1, Some(1), id, Undefined)
  {
    steps := PushFreeze([], 1);
    steps := Push(steps, Retire);
    steps := Push(steps, Load(7, id));
    steps := PushFreeze(steps, 2);
    steps := Push(steps, Retire);
    steps := PushFreeze(steps, 3);
    steps := Push(steps, Probe(7));
  }

  /** A Freeze of an empty list, up to its delete. */
  lemma PushFreeze(steps: seq<Step>, a: nat) returns (more: seq<Step>)
    requires Runs(steps) && After(steps).writer.Idle? && a !in After(steps).heap && After(steps).routes == imap[]
    requires After(steps).retired.Some? ==> After(steps).retired.value != a
    ensures Runs(more)
    ensures var s := After(steps);
            var heap := s.heap[a := Cell(|s.history| + 1, [])];
            After(more) == s.(
              heap := if s.retired.Some? then heap - {s.retired.value} else heap, current := Some(a),
              writer := Deleted(s.current), history := s.history + [Publication(a, [], imap[])])
  {
    more := Push(steps, Sort(a, []));
    more := Push(more, Exchange);
    more := Push(more, DeleteRetired);
  }

  lemma Push(steps: seq<Step>, step: Step) returns (more: seq<Step>)
    requires Runs(steps) && Enabled(After(steps), step)
    ensures Runs(more) && After(more) == Do(After(steps), step)
  {
    more := steps + [step];
    assert more[..|more| - 1] == steps;
  }
}
