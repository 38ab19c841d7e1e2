/**
 The timers of a manager as a table, without queues: what registering, cancelling and
 firing do to it, deadlines included.
 */
module TimerBook {
  import opened DueTimers

  /** all_timers_, generate_timer_id_, and whether registering is still possible. */
  datatype Book = Book(timers: map<int, Timer>, lastId: int, open: bool)

  function Noted(b: Book, command: Command, c: Clock): Book {
    match command
    case Register(kind, duration, loop) =>
      if !b.open then b
      else Book(b.timers[b.lastId + 1 := Timer(kind, true, loop, duration, c.Now(kind) + duration)], b.lastId + 1, true)
    case UnRegister(id) =>
      if id in b.timers then b.(timers := b.timers[id := b.timers[id].(active := false)]) else b
  }

  function AllNoted(b: Book, commands: seq<Command>, c: Clock): Book {
    if commands == [] then b else Noted(AllNoted(b, commands[..|commands| - 1], c), commands[|commands| - 1], c)
  }

  /** A timer has fired: a looping one is set to its duration from now, any other is gone. */
  function Rung(b: Book, id: int, commands: seq<Command>, c: Clock): Book {
    var u := AllNoted(b, commands, c);
    if id !in u.timers then u
    else
      var t := u.timers[id];
      if t.loop then u.(timers := u.timers[id := Timer(t.kind, t.active, true, t.duration, c.Now(t.kind) + t.duration)])
      else u.(timers := u.timers - {id})
  }

  /** These have fired one after the other, the first of them with the `k`-th callback. */
  function AllRung(b: Book, fired: seq<int>, script: nat -> seq<Command>, k: nat, c: Clock): Book {
    if fired == [] then b
    else
      var n := |fired| - 1;
      Rung(AllRung(b, fired[..n], script, k, c), fired[n], script(k + n), c)
  }

  lemma AllNotedNext(b: Book, commands: seq<Command>, n: nat, c: Clock)
    requires n < |commands|
    ensures AllNoted(b, commands[..n + 1], c) == Noted(AllNoted(b, commands[..n], c), commands[n], c)
  {
    assert commands[..n + 1][..n] == commands[..n];
  }

  lemma AllRungNext(b: Book, fired: seq<int>, id: int, script: nat -> seq<Command>, k: nat, c: Clock)
    ensures AllRung(b, fired + [id], script, k, c) == Rung(AllRung(b, fired, script, k, c), id, script(k + |fired|), c)
  {
    assert (fired + [id])[..|fired|] == fired;
  }

  lemma {:induction false} AllRungAppend(b: Book, first: seq<int>, more: seq<int>, script: nat -> seq<Command>, k: nat, c: Clock)
    ensures AllRung(b, first + more, script, k, c) == AllRung(AllRung(b, first, script, k, c), more, script, k + |first|, c)
  {
    if more == [] {
      assert first + more == first;
    } else {
      var n := |more| - 1;
      assert (first + more)[..|first| + n] == first + more[..n];
      AllRungAppend(b, first, more[..n], script, k, c);
    }
  }

  // ---- Giving up inactive timers ----------------------------------------------------------------

  /** `b` is `full` without some timers that are not active. */
  ghost predicate Sparse(b: Book, full: Book) {
    && b.lastId == full.lastId && b.open == full.open
    && (forall x :: x in b.timers ==> x in full.timers && full.timers[x] == b.timers[x])
    && (forall x :: x in full.timers && x !in b.timers ==> !full.timers[x].active)
    && (forall x :: x in full.timers ==> x <= full.lastId)
  }

  /** The timers given up. */
  function Gap(b: Book, full: Book): set<int> {
    full.timers.Keys - b.timers.Keys
  }

  lemma GapSelf(b: Book)
    ensures |Gap(b, b)| == 0
  {
    assert Gap(b, b) == {};
  }

  lemma SparseNoted(b: Book, full: Book, command: Command, c: Clock)
    requires Sparse(b, full)
    ensures Sparse(Noted(b, command, c), Noted(full, command, c)) && Gap(Noted(b, command, c), Noted(full, command, c)) == Gap(b, full)
  {
  }

  lemma {:induction false} SparseAllNoted(b: Book, full: Book, commands: seq<Command>, c: Clock)
    requires Sparse(b, full)
    ensures Sparse(AllNoted(b, commands, c), AllNoted(full, commands, c))
    ensures Gap(AllNoted(b, commands, c), AllNoted(full, commands, c)) == Gap(b, full)
  {
    if commands != [] {
      var n := |commands| - 1;
      SparseAllNoted(b, full, commands[..n], c);
      SparseNoted(AllNoted(b, commands[..n], c), AllNoted(full, commands[..n], c), commands[n], c);
    }
  }

  lemma {:induction false} NotedStays(b: Book, commands: seq<Command>, x: int, c: Clock)
    requires x in b.timers && x <= b.lastId
    ensures var u := AllNoted(b, commands, c);
            && x in u.timers && b.lastId <= u.lastId
            && u.timers[x] == b.timers[x].(active := b.timers[x].active && x !in Cancels(commands))
  {
    if commands == [] {
      assert Cancels(commands) == {};
    } else {
      var n := |commands| - 1;
      NotedStays(b, commands[..n], x, c);
      CancelsNext(commands, n);
      assert commands[..n + 1] == commands;
    }
  }

  lemma SparseRung(b: Book, full: Book, id: int, commands: seq<Command>, c: Clock)
    requires Sparse(b, full) && id in b.timers
    ensures Sparse(Rung(b, id, commands, c), Rung(full, id, commands, c))
    ensures Gap(Rung(b, id, commands, c), Rung(full, id, commands, c)) == Gap(b, full)
  {
    SparseAllNoted(b, full, commands, c);
    NotedStays(b, commands, id, c);
  }

  lemma SparseDropped(b: Book, full: Book, id: int)
    requires Sparse(b, full) && id in b.timers && !b.timers[id].active
    ensures Sparse(b.(timers := b.timers - {id}), full)
    ensures |Gap(b.(timers := b.timers - {id}), full)| == |Gap(b, full)| + 1
  {
    assert Gap(b.(timers := b.timers - {id}), full) == Gap(b, full) + {id};
  }

  // ---- One timer ---------------------------------------------------------------------------------

  /** A timer that nobody cancels: untouched if it does not fire, set to its duration from now
      if it does and loops, gone if it does not loop. */
  lemma {:induction false} RungTimer(b: Book, fired: seq<int>, script: nat -> seq<Command>, k: nat, x: int, c: Clock)
    requires x in b.timers && x <= b.lastId && NeverCancelled(script, k, x)
    ensures var t, u := b.timers[x], AllRung(b, fired, script, k, c);
            && x <= u.lastId
            && (x !in fired ==> x in u.timers && u.timers[x] == t)
            && (x in fired && t.loop ==>
                  x in u.timers && u.timers[x] == Timer(t.kind, t.active, true, t.duration, c.Now(t.kind) + t.duration))
            && (x in fired && !t.loop ==> x !in u.timers)
  {
    if fired != [] {
      var n := |fired| - 1;
      RungTimer(b, fired[..n], script, k, x, c);
      var v := AllRung(b, fired[..n], script, k, c);
      assert x in fired <==> x in fired[..n] || x == fired[n];
      if x in v.timers { NotedStays(v, script(k + n), x, c); } else { NotedAbsent(v, script(k + n), x, c); }
    }
  }

  lemma {:induction false} NotedAbsent(b: Book, commands: seq<Command>, x: int, c: Clock)
    requires x !in b.timers && x <= b.lastId
    ensures var u := AllNoted(b, commands, c); x !in u.timers && b.lastId <= u.lastId
  {
    if commands != [] { NotedAbsent(b, commands[..|commands| - 1], x, c); }
  }
}
