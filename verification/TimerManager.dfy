/**
 Timers that fire from two priority queues, with lazy cancellation, re-arming, and
 callbacks that register and cancel timers while an update is running.
 */
module TimerManager {
  import opened DueTimers
  import opened TimerBook

  // ---- Inserting into a queue ---------------------------------------------------------------

  /** Where push puts a timer. */
  function Insert(q: seq<int>, timers: map<int, Timer>, id: int): (r: seq<int>)
    requires id in timers && forall i :: 0 <= i < |q| ==> q[i] in timers
    ensures multiset(r) == multiset(q) + multiset{id}
  {
    if q == [] then [id]
    else if Before(timers, id, q[0]) then [id] + q
    else
      assert q == [q[0]] + q[1..];
      [q[0]] + Insert(q[1..], timers, id)
  }

  lemma InsertMembers(q: seq<int>, timers: map<int, Timer>, id: int)
    requires id in timers && forall i :: 0 <= i < |q| ==> q[i] in timers
    ensures |Insert(q, timers, id)| == |q| + 1
    ensures forall x :: x in Insert(q, timers, id) <==> x == id || x in q
  {
    var r := Insert(q, timers, id);
    assert |r| == |multiset(r)| == |multiset(q)| + 1;
    forall x ensures x in r <==> x == id || x in q {
      assert x in r <==> x in multiset(r);
      assert x in q <==> x in multiset(q);
    }
  }

  lemma SortedCons(x: int, q: seq<int>, timers: map<int, Timer>)
    requires Sorted(q, timers) && x in timers && forall y :: y in q ==> Before(timers, x, y)
    ensures Sorted([x] + q, timers)
  {
  }

  lemma HeadFirst(q: seq<int>, timers: map<int, Timer>)
    requires Sorted(q, timers) && q != []
    ensures Sorted(q[1..], timers)
    ensures forall y :: y in q[1..] ==> Before(timers, q[0], y)
  {
  }

  lemma {:induction false} InsertSorted(q: seq<int>, timers: map<int, Timer>, id: int)
    requires Sorted(q, timers) && id in timers && id !in q
    ensures Sorted(Insert(q, timers, id), timers)
  {
    if q != [] {
      HeadFirst(q, timers);
      if Before(timers, id, q[0]) {
        forall y | y in q ensures Before(timers, id, y) {
          assert y == q[0] || y in q[1..];
        }
        SortedCons(id, q, timers);
      } else {
        InsertSorted(q[1..], timers, id);
        var r := Insert(q[1..], timers, id);
        InsertMembers(q[1..], timers, id);
        forall y | y in r ensures Before(timers, q[0], y) {
          assert y == id || y in q[1..];
        }
        SortedCons(q[0], r, timers);
        assert Insert(q, timers, id) == [q[0]] + r;
      }
    }
  }

  /** Cancelling and adding timers leaves the order of a queue alone. */
  ghost predicate Grown(q: seq<int>, timers: map<int, Timer>, timers': map<int, Timer>) {
    forall i :: 0 <= i < |q| && q[i] in timers ==>
      q[i] in timers' && timers'[q[i]] == timers[q[i]].(active := timers'[q[i]].active)
  }

  lemma GrownKeeps(q: seq<int>, timers: map<int, Timer>, timers': map<int, Timer>)
    requires Grown(q, timers, timers') && Sorted(q, timers)
    ensures Sorted(q, timers')
  {
  }

  // ---- The manager ----------------------------------------------------------------------------

  datatype Queues = Queues(steady: seq<int>, system: seq<int>) {
    function At(kind: Kind): seq<int> {
      match kind case Steady => steady case System => system
    }
    function With(kind: Kind, q: seq<int>): (r: Queues)
      ensures r.At(kind) == q && forall k :: k != kind ==> r.At(k) == At(k)
    {
      match kind case Steady => this.(steady := q) case System => this.(system := q)
    }
  }

  /** Sorted without duplicates, and made up of timers of its own kind. */
  ghost predicate WellQueued(kind: Kind, q: seq<int>, timers: map<int, Timer>) {
    Sorted(q, timers) && forall i :: 0 <= i < |q| ==> timers[q[i]].kind == kind
  }

  /** The queues are sorted and duplicate-free; each owned timer is in exactly one of
      them, unless its callback is running (then it is `inFlight`). */
  ghost predicate WellKept(queues: Queues, timers: map<int, Timer>, inFlight: set<int>, lastId: int) {
    && WellQueued(Steady, queues.steady, timers) && WellQueued(System, queues.system, timers)
    && (forall id :: id in timers <==> id in queues.steady || id in queues.system || id in inFlight)
    && (forall id :: id in inFlight ==> id !in queues.steady && id !in queues.system)
    && (forall id :: id in timers ==> 0 < id <= lastId)
  }

  lemma PopKeeps(queues: Queues, timers: map<int, Timer>, lastId: int, kind: Kind)
    requires WellKept(queues, timers, {}, lastId) && queues.At(kind) != []
    ensures var q := queues.At(kind);
            && WellKept(queues.With(kind, q[1..]), timers, {q[0]}, lastId)
            && q[0] in timers && timers[q[0]].kind == kind
  {
    var q := queues.At(kind);
    HeadFirst(q, timers);
    assert forall i :: 0 <= i < |q[1..]| ==> q[1..][i] == q[i + 1];
    assert forall x :: x in q <==> x == q[0] || x in q[1..];
    assert forall x :: x in q[1..] ==> timers[x].kind == kind;
  }

  lemma GiveUpKeeps(queues: Queues, timers: map<int, Timer>, lastId: int, id: int)
    requires WellKept(queues, timers, {id}, lastId) && id in timers
    ensures WellKept(queues, timers - {id}, {}, lastId)
  {
  }

  lemma RearmKeeps(queues: Queues, timers: map<int, Timer>, lastId: int, id: int, kind: Kind, c: Clock)
    requires WellKept(queues, timers, {id}, lastId) && id in timers && timers[id].kind == kind
    ensures var timers' := timers[id := timers[id].Reset(c)];
            && WellKept(queues, timers', {id}, lastId)
            && WellKept(queues.With(kind, Insert(queues.At(kind), timers', id)), timers', {}, lastId)
  {
    var timers' := timers[id := timers[id].Reset(c)];
    assert id !in queues.steady && id !in queues.system;
    QueueFrame(Steady, queues.steady, timers, timers');
    QueueFrame(System, queues.system, timers, timers');
    PushedKeeps(queues, timers', lastId, id, kind);
  }

  lemma QueueFrame(kind: Kind, q: seq<int>, timers: map<int, Timer>, timers': map<int, Timer>)
    requires WellQueued(kind, q, timers) && forall i :: 0 <= i < |q| ==> q[i] in timers' && timers'[q[i]] == timers[q[i]]
    ensures WellQueued(kind, q, timers')
  {
  }

  lemma PushedKeeps(queues: Queues, timers: map<int, Timer>, lastId: int, id: int, kind: Kind)
    requires WellKept(queues, timers, {id}, lastId) && id in timers && timers[id].kind == kind
    ensures WellKept(queues.With(kind, Insert(queues.At(kind), timers, id)), timers, {}, lastId)
  {
    InsertWell(kind, queues.At(kind), timers, id);
  }

  lemma AddedKeeps(queues: Queues, timers: map<int, Timer>, timers': map<int, Timer>, inFlight: set<int>, id: int, kind: Kind)
    requires WellKept(queues, timers, inFlight, id - 1) && 0 < id
    requires id in timers' && timers' == timers[id := timers'[id]] && timers'[id].kind == kind
    ensures WellKept(queues.With(kind, Insert(queues.At(kind), timers', id)), timers', inFlight, id)
  {
    assert id !in queues.steady && id !in queues.system;
    QueueFrame(Steady, queues.steady, timers, timers');
    QueueFrame(System, queues.system, timers, timers');
    InsertWell(kind, queues.At(kind), timers', id);
  }

  /** Timer `t` has been added under a fresh `id` and pushed on its queue. */
  ghost predicate Added(queues: Queues, timers: map<int, Timer>, queues': Queues, timers': map<int, Timer>, id: int, t: Timer) {
    && id !in timers && timers' == timers[id := t]
    && (forall i :: 0 <= i < |queues.At(t.kind)| ==> queues.At(t.kind)[i] in timers')
    && queues' == queues.With(t.kind, Insert(queues.At(t.kind), timers', id))
  }

  lemma InsertWell(kind: Kind, q: seq<int>, timers: map<int, Timer>, id: int)
    requires WellQueued(kind, q, timers) && id in timers && timers[id].kind == kind && id !in q
    ensures WellQueued(kind, Insert(q, timers, id), timers)
    ensures forall x :: x in Insert(q, timers, id) <==> x == id || x in q
  {
    InsertMembers(q, timers, id);
    InsertSorted(q, timers, id);
    var r := Insert(q, timers, id);
    forall i | 0 <= i < |r| ensures timers[r[i]].kind == kind {
      assert r[i] in r;
    }
  }

  // ---- What is due ---------------------------------------------------------------------------------

  /** The active timers of a queue that are due. */
  ghost function DueIn(q: seq<int>, timers: map<int, Timer>, c: Clock): map<int, Timer> {
    map x | x in q && x in timers && timers[x].active && timers[x].Expired(c) :: timers[x]
  }

  ghost function DuesOf(queues: Queues, timers: map<int, Timer>, lastId: int, open: bool, c: Clock): Dues {
    Dues(DueIn(queues.steady, timers, c), DueIn(queues.system, timers, c), lastId, open)
  }

  ghost predicate Disjoint(s: Dues) {
    forall x :: x !in s.steady || x !in s.system
  }

  lemma DuesProper(queues: Queues, timers: map<int, Timer>, inFlight: set<int>, lastId: int, open: bool, c: Clock)
    requires WellKept(queues, timers, inFlight, lastId)
    ensures Proper(DuesOf(queues, timers, lastId, open, c), c) && Disjoint(DuesOf(queues, timers, lastId, open, c))
  {
    var s := DuesOf(queues, timers, lastId, open, c);
    forall kind, x | x in s.At(kind)
      ensures s.At(kind)[x].kind == kind && s.At(kind)[x].active && s.At(kind)[x].Expired(c) && x <= s.lastId
    {
      QueuedKind(kind, queues.At(kind), timers, x);
    }
    forall x ensures x !in s.steady || x !in s.system {
      if x in s.steady && x in s.system {
        QueuedKind(Steady, queues.steady, timers, x);
        QueuedKind(System, queues.system, timers, x);
      }
    }
  }

  lemma QueuedKind(kind: Kind, q: seq<int>, timers: map<int, Timer>, x: int)
    requires WellQueued(kind, q, timers) && x in q
    ensures x in timers && timers[x].kind == kind
  {
  }

  lemma DueFrame(q: seq<int>, timers: map<int, Timer>, timers': map<int, Timer>, c: Clock)
    requires forall x :: x in q ==> (x in timers <==> x in timers') && (x in timers ==> timers'[x] == timers[x])
    ensures DueIn(q, timers', c) == DueIn(q, timers, c)
  {
    var l, w := DueIn(q, timers', c), DueIn(q, timers, c);
    forall x ensures x in l <==> x in w {}
    forall x | x in w ensures l[x] == w[x] {}
    assert l == w;
  }

  lemma DueInserted(q: seq<int>, timers: map<int, Timer>, id: int, t: Timer, c: Clock)
    requires id !in q && forall i :: 0 <= i < |q| ==> q[i] in timers[id := t]
    ensures DueIn(Insert(q, timers[id := t], id), timers[id := t], c)
            == if t.active && t.Expired(c) then DueIn(q, timers, c)[id := t] else DueIn(q, timers, c)
  {
    InsertMembers(q, timers[id := t], id);
    var timers', m := timers[id := t], DueIn(q, timers, c);
    var r := Insert(q, timers', id);
    var l, w := DueIn(r, timers', c), if t.active && t.Expired(c) then m[id := t] else m;
    forall x ensures x in l <==> x in w {
      assert x in r <==> x == id || x in q;
    }
    forall x | x in w ensures l[x] == w[x] {}
  }

  /** A timer comes into the queue of its kind: it is due, or nothing changes. */
  lemma InsertedDues(queues: Queues, timers: map<int, Timer>, lastId: int, lastId': int, open: bool, id: int, t: Timer, c: Clock)
    requires id !in queues.steady && id !in queues.system
    requires forall i :: 0 <= i < |queues.At(t.kind)| ==> queues.At(t.kind)[i] in timers[id := t]
    ensures var s := DuesOf(queues, timers, lastId, open, c).(lastId := lastId');
            DuesOf(queues.With(t.kind, Insert(queues.At(t.kind), timers[id := t], id)), timers[id := t], lastId', open, c)
            == if t.active && t.Expired(c) then s.With(t.kind, s.At(t.kind)[id := t]) else s
  {
    DueInserted(queues.At(t.kind), timers, id, t, c);
    DueFrame(queues.At(Other(t.kind)), timers, timers[id := t], c);
    hide DueIn;
  }

  /** What is registered is due if it does not rest. */
  lemma AddedDues(queues: Queues, timers: map<int, Timer>, queues': Queues, timers': map<int, Timer>, inFlight: set<int>, id: int,
                  kind: Kind, duration: int, loop: bool, c: Clock)
    requires Added(queues, timers, queues', timers', id, Registered(kind, duration, loop, c)) && WellKept(queues, timers, inFlight, id - 1)
    ensures DuesOf(queues', timers', id, true, c) == Obeyed(DuesOf(queues, timers, id - 1, true, c), Register(kind, duration, loop), c)
  {
    hide DueIn;
    assert id !in queues.steady && id !in queues.system;
    InsertedDues(queues, timers, id - 1, id, true, id, Registered(kind, duration, loop, c), c);
  }

  lemma MarkedDues(queues: Queues, timers: map<int, Timer>, timers': map<int, Timer>, lastId: int, open: bool, id: int, c: Clock)
    requires timers' == if id in timers then timers[id := timers[id].(active := false)] else timers
    ensures DuesOf(queues, timers', lastId, open, c) == Obeyed(DuesOf(queues, timers, lastId, open, c), UnRegister(id), c)
  {
  }

  lemma GivenUpDues(queues: Queues, timers: map<int, Timer>, lastId: int, open: bool, id: int, c: Clock)
    requires id !in queues.steady && id !in queues.system
    ensures DuesOf(queues, timers - {id}, lastId, open, c) == DuesOf(queues, timers, lastId, open, c)
  {
  }

  lemma PoppedDues(queues: Queues, timers: map<int, Timer>, lastId: int, open: bool, kind: Kind, c: Clock)
    requires WellKept(queues, timers, {}, lastId) && queues.At(kind) != []
    ensures var s, q := DuesOf(queues, timers, lastId, open, c), queues.At(kind);
            DuesOf(queues.With(kind, q[1..]), timers, lastId, open, c) == s.With(kind, s.At(kind) - {q[0]})
  {
    DuePopped(queues.At(kind), timers, c);
    hide DueIn;
  }

  lemma DuePopped(q: seq<int>, timers: map<int, Timer>, c: Clock)
    requires Sorted(q, timers) && q != []
    ensures DueIn(q[1..], timers, c) == DueIn(q, timers, c) - {q[0]}
  {
    HeadFirst(q, timers);
    assert q[0] !in q[1..] by { assert !Before(timers, q[0], q[0]); }
    assert forall x :: x in q <==> x == q[0] || x in q[1..];
  }

  lemma RearmedDues(queues: Queues, timers: map<int, Timer>, lastId: int, open: bool, id: int, kind: Kind, c: Clock)
    requires WellKept(queues, timers, {id}, lastId) && id in timers && timers[id].kind == kind
    ensures var t, s := timers[id].Reset(c), DuesOf(queues, timers, lastId, open, c);
            var timers' := timers[id := t];
            && (forall i :: 0 <= i < |queues.At(kind)| ==> queues.At(kind)[i] in timers')
            && DuesOf(queues.With(kind, Insert(queues.At(kind), timers', id)), timers', lastId, open, c)
               == if t.active && t.Expired(c) then s.With(kind, s.At(kind)[id := t]) else s
  {
    hide DueIn;
    assert id !in queues.steady && id !in queues.system;
    InsertedDues(queues, timers, lastId, lastId, open, id, timers[id].Reset(c), c);
  }

  /** The top of a queue, if it is active and due, is the first of all that are. */
  lemma TopFirst(q: seq<int>, timers: map<int, Timer>, c: Clock)
    requires Sorted(q, timers) && q != [] && timers[q[0]].active && timers[q[0]].Expired(c)
    ensures DueIn(q, timers, c) != map[] && First(DueIn(q, timers, c)) == q[0] && DueIn(q, timers, c)[q[0]] == timers[q[0]]
  {
    var m := DueIn(q, timers, c);
    assert q[0] in m;
    forall x | x in m && x != q[0] ensures Before(m, q[0], x) {
      var i :| 0 <= i < |q| && q[i] == x;
      assert Before(timers, q[0], q[i]);
    }
    FirstIs(m, q[0]);
  }

  /** If the top is not due, nothing is. */
  lemma TopLast(kind: Kind, q: seq<int>, timers: map<int, Timer>, c: Clock)
    requires WellQueued(kind, q, timers) && q != [] && !timers[q[0]].Expired(c)
    ensures NoneExpired(q, timers, c)
  {
    forall x | x in q ensures !timers[x].Expired(c) {
      var i :| 0 <= i < |q| && q[i] == x;
      assert i > 0 ==> Before(timers, q[0], q[i]);
    }
  }

  ghost predicate NoneExpired(q: seq<int>, timers: map<int, Timer>, c: Clock) {
    forall x :: x in q && x in timers ==> !timers[x].Expired(c)
  }

  lemma NothingDue(q: seq<int>, timers: map<int, Timer>, c: Clock)
    requires NoneExpired(q, timers, c)
    ensures DueIn(q, timers, c) == map[]
  {
    assert forall x :: x !in DueIn(q, timers, c);
  }

  /** From the pop through the callback to the re-arming. */
  lemma FiredDues(s: Dues, kind: Kind, commands: seq<Command>, u: Dues, active: bool, c: Clock)
    requires Proper(s, c) && Disjoint(s) && s.At(kind) != map[]
    requires var id := First(s.At(kind));
             var t, v := s.At(kind)[id], AllObeyed(s.With(kind, s.At(kind) - {id}), commands, c);
             && active == (id !in Cancels(commands))
             && u == if t.loop && active && !Rests(kind, t.duration) then v.With(kind, v.At(kind)[id := t.Reset(c)]) else v
    ensures u == Turn(s, kind, commands, c)
  {
    var id := First(s.At(kind));
    var t, v := s.At(kind)[id], s.With(kind, s.At(kind) - {id});
    assert id !in s.steady || id !in s.system;
    if Restless(t, c) {
      Late(v, commands, kind, id, t.Reset(c), c);
      assert v.At(kind)[id := t.Reset(c)] == s.At(kind)[id := t.Reset(c)];
      assert v.With(kind, v.At(kind)[id := t.Reset(c)]) == s.With(kind, s.At(kind)[id := t.Reset(c)]);
    }
  }

  lemma RungIs(b: Book, u: Book, id: int, kind: Kind, commands: seq<Command>, timers: map<int, Timer>, c: Clock)
    requires u == AllNoted(b, commands, c) && id in u.timers && u.timers[id].kind == kind
    requires timers == if u.timers[id].loop then u.timers[id := u.timers[id].(deadline := c.Now(kind) + u.timers[id].duration)]
                       else u.timers - {id}
    ensures u.(timers := timers) == Rung(b, id, commands, c)
  {
  }

  datatype Outcome = Dropped | Fired | Nothing

  ghost predicate GoesOn(clock: nat -> Clock) {
    forall i: nat :: clock(i).steady <= clock(i + 1).steady && clock(i).system <= clock(i + 1).system
  }

  /** What is restless stays so while the clock goes on. */
  lemma WaitsOn(queues: Queues, timers: map<int, Timer>, lastId: int, open: bool, kind: Kind, x: int, c: Clock, c': Clock)
    requires Waits(DuesOf(queues, timers, lastId, open, c), kind, x, c) && Proper(DuesOf(queues, timers, lastId, open, c), c)
    requires c.steady <= c'.steady && c.system <= c'.system
    ensures Waits(DuesOf(queues, timers, lastId, open, c'), kind, x, c')
  {
  }

  /** The list of due timers, less the inactive ones. */
  lemma DueLists(kind: Kind, q: seq<int>, timers: map<int, Timer>, c: Clock)
    requires WellQueued(kind, q, timers)
    ensures Lists(Due(q, timers, c), Inactive(timers), timers, DueIn(q, timers, c))
  {
    var due := Due(q, timers, c);
    DueIsFirst(q, timers, c);
    forall x ensures x in DueIn(q, timers, c) <==> x in due && x !in Inactive(timers) {
      if x in q {
        var i :| 0 <= i < |q| && q[i] == x;
        assert i < |due| ==> due[i] == x;
      }
      if x in due {
        var i :| 0 <= i < |due| && due[i] == x;
        assert q[i] == x;
      }
    }
    assert forall i :: 0 <= i < |due| ==> due[i] == q[i];
  }

  function Inactive(timers: map<int, Timer>): set<int> {
    set id | id in timers && !timers[id].active
  }

  class TimerManager {
    var queues: Queues
    var timers: map<int, Timer>   // all_timers_
    var lastId: int               // generate_timer_id_
    var shuttingDown: bool
    ghost var inFlight: set<int>  // popped, its callback still running

    ghost predicate Valid()
      reads this
    {
      0 <= lastId && WellKept(queues, timers, inFlight, lastId)
    }

    /** What is due now. */
    ghost function Left(c: Clock): Dues
      reads `queues, `timers, `lastId, `shuttingDown
    {
      DuesOf(queues, timers, lastId, !shuttingDown, c)
    }

    /** All timers, due or not. */
    ghost function Kept(): Book
      reads `timers, `lastId, `shuttingDown
    {
      Book(timers, lastId, !shuttingDown)
    }

    constructor ()
      ensures Valid() && timers == map[] && inFlight == {} && !shuttingDown
    {
      queues, timers, lastId, shuttingDown, inFlight := Queues([], []), map[], 0, false, {};
    }

    /** RegisterTimer and RegisterSystemTimer. */
    method RegisterTimer(kind: Kind, duration: int, loop: bool, c: Clock) returns (id: int)
      requires Valid()
      modifies this`queues, this`timers, this`lastId
      ensures Valid()
      ensures shuttingDown ==> id == -1 && queues == old(queues) && timers == old(timers) && lastId == old(lastId)
      ensures !shuttingDown ==>
                && id == lastId == old(lastId) + 1 && id !in old(timers)
                && Added(old(queues), old(timers), queues, timers, id, Registered(kind, duration, loop, c))
    {
      if shuttingDown { return -1; }
      lastId := lastId + 1;
      id := lastId;
      timers := timers[id := Registered(kind, duration, loop, c)];
      AddedKeeps(queues, old(timers), timers, inFlight, id, kind);
      queues := queues.With(kind, Insert(queues.At(kind), timers, id));
    }

    /** Marks a timer; it stays in its queue until it comes to the top. */
    method UnRegisterTimer(id: int)
      requires Valid()
      modifies this`timers
      ensures Valid()
      ensures timers == if id in old(timers) then old(timers)[id := old(timers)[id].(active := false)] else old(timers)
    {
      if id in timers {
        timers := timers[id := timers[id].(active := false)];
        GrownKeeps(queues.steady, old(timers), timers);
        GrownKeeps(queues.system, old(timers), timers);
      }
    }

    /** Cancels every active timer that is not yet due and refuses new ones. */
    method EnterShutdownMode(c: Clock)
      requires Valid()
      modifies this`timers, this`shuttingDown
      ensures Valid() && shuttingDown && timers.Keys == old(timers).Keys
      ensures forall id :: id in timers ==>
                timers[id] == old(timers)[id].(active := old(timers)[id].active && old(timers)[id].Expired(c))
    {
      shuttingDown := true;
      timers := map id | id in timers ::
        if !timers[id].Expired(c) && timers[id].active then timers[id].(active := false) else timers[id];
      GrownKeeps(queues.steady, old(timers), timers);
      GrownKeeps(queues.system, old(timers), timers);
    }

    /** Runs a callback: command by command it does what it says, to all timers and to those due. */
    method RunCallback(commands: seq<Command>, c: Clock)
      requires Valid()
      modifies this`queues, this`timers, this`lastId
      ensures Valid() && Left(c) == AllObeyed(old(Left(c)), commands, c) && Kept() == AllNoted(old(Kept()), commands, c)
    {
      var n := 0;
      while n < |commands|
        invariant 0 <= n <= |commands| && Valid() && Left(c) == AllObeyed(old(Left(c)), commands[..n], c)
        invariant Kept() == AllNoted(old(Kept()), commands[..n], c)
      {
        Obey(commands[n], c);
        AllObeyedNext(old(Left(c)), commands, n, c);
        AllNotedNext(old(Kept()), commands, n, c);
        n := n + 1;
      }
      assert commands[..n] == commands;
    }

    method Obey(command: Command, c: Clock)
      requires Valid()
      modifies this`queues, this`timers, this`lastId
      ensures Valid() && Left(c) == Obeyed(old(Left(c)), command, c) && Kept() == Noted(old(Kept()), command, c)
    {
      match command {
        case Register(kind, duration, loop) => ObeyRegister(kind, duration, loop, c);
        case UnRegister(id) =>
          ghost var before := timers;
          UnRegisterTimer(id);
          MarkedDues(queues, before, timers, lastId, !shuttingDown, id, c);
      }
    }

    method ObeyRegister(kind: Kind, duration: int, loop: bool, c: Clock)
      requires Valid()
      modifies this`queues, this`timers, this`lastId
      ensures Valid() && Left(c) == Obeyed(old(Left(c)), Register(kind, duration, loop), c)
      ensures Kept() == Noted(old(Kept()), Register(kind, duration, loop), c)
    {
      hide DueIn, WellKept, Insert;
      ghost var q, before := queues, timers;
      var id := RegisterTimer(kind, duration, loop, c);
      if !shuttingDown { AddedDues(q, before, queues, timers, inFlight, id, kind, duration, loop, c); }
    }

    /** Pops a cancelled timer and gives it up. */
    method Drop(kind: Kind, c: Clock)
      requires Valid() && inFlight == {} && queues.At(kind) != [] && !timers[queues.At(kind)[0]].active
      modifies this`queues, this`timers
      ensures Valid() && queues == old(queues).With(kind, old(queues).At(kind)[1..])
      ensures timers == old(timers) - {old(queues).At(kind)[0]} && Left(c) == old(Left(c))
    {
      var id := queues.At(kind)[0];
      PopKeeps(queues, timers, lastId, kind);
      PoppedDues(queues, timers, lastId, !shuttingDown, kind, c);
      assert Left(c).With(kind, Left(c).At(kind) - {id}) == Left(c) by { Without(Left(c), kind, id); }
      queues := queues.With(kind, queues.At(kind)[1..]);
      GiveUpKeeps(queues, timers, lastId, id);
      GivenUpDues(queues, timers, lastId, !shuttingDown, id, c);
      timers := timers - {id};
    }

    /** Takes a due timer from the top; its callback is about to run. */
    method Pop(kind: Kind, c: Clock) returns (id: int)
      requires Valid() && inFlight == {} && queues.At(kind) != []
      requires timers[queues.At(kind)[0]].active && timers[queues.At(kind)[0]].Expired(c)
      modifies this`queues, this`inFlight
      ensures Valid() && inFlight == {id} && id in timers && timers[id].kind == kind && timers[id].active && id <= lastId
      ensures var s := old(Left(c));
              && s.At(kind) != map[] && id == First(s.At(kind)) && s.At(kind)[id] == timers[id]
              && Left(c) == s.With(kind, s.At(kind) - {id}) && Proper(s, c) && Disjoint(s)
    {
      hide DueIn;
      id := queues.At(kind)[0];
      TopFirst(queues.At(kind), timers, c);
      DuesProper(queues, timers, {}, lastId, !shuttingDown, c);
      PopKeeps(queues, timers, lastId, kind);
      PoppedDues(queues, timers, lastId, !shuttingDown, kind, c);
      queues := queues.With(kind, queues.At(kind)[1..]);
      inFlight := {id};
    }

    /** Pops a due timer, runs its callback, then re-arms it or gives it up: one turn. */
    method Fire(kind: Kind, c: Clock, commands: seq<Command>) returns (id: int)
      requires Valid() && inFlight == {} && queues.At(kind) != []
      requires timers[queues.At(kind)[0]].active && timers[queues.At(kind)[0]].Expired(c)
      modifies this`queues, this`timers, this`lastId, this`inFlight
      ensures Valid() && inFlight == {} && old(Left(c)).At(kind) != map[]
      ensures id == First(old(Left(c)).At(kind)) && Left(c) == Turn(old(Left(c)), kind, commands, c)
      ensures id in old(timers) && Kept() == Rung(old(Kept()), id, commands, c)
    {
      hide Turn, Rung, AllNoted, AllObeyed, IsFirst, Proper, Disjoint, DuesOf, DueIn, WellKept;
      ghost var s := Left(c);
      id := Pop(kind, c);
      ghost var t, b := timers[id], Kept();
      assert b == old(Kept());
      RunCallback(commands, c);
      NotedStays(b, commands, id, c);
      ghost var noted := Kept();
      assert timers[id] == t.(active := id !in Cancels(commands));
      Finish(id, kind, c);
      FiredDues(s, kind, commands, Left(c), noted.timers[id].active, c);
      RungIs(b, noted, id, kind, commands, timers, c);
    }

    /** After the callback: a looping timer is re-armed and pushed back, any other given up. */
    method Finish(id: int, kind: Kind, c: Clock)
      requires Valid() && inFlight == {id} && id in timers && timers[id].kind == kind
      modifies this`queues, this`timers, this`inFlight
      ensures Valid() && inFlight == {}
      ensures var s, t := old(Left(c)), old(timers)[id];
              Left(c) == if t.loop && t.active && !Rests(kind, t.duration) then s.With(kind, s.At(kind)[id := t.Reset(c)]) else s
      ensures timers == if old(timers)[id].loop then old(timers)[id := old(timers)[id].(deadline := c.Now(kind) + old(timers)[id].duration)]
                        else old(timers) - {id}
    {
      hide DuesOf, DueIn, WellKept, Insert;
      if timers[id].loop {
        RearmKeeps(queues, timers, lastId, id, kind, c);
        RearmedDues(queues, timers, lastId, !shuttingDown, id, kind, c);
        ResetRests(timers[id], c);
        timers := timers[id := timers[id].Reset(c)];
        queues := queues.With(kind, Insert(queues.At(kind), timers, id));
      } else {
        GiveUpKeeps(queues, timers, lastId, id);
        GivenUpDues(queues, timers, lastId, !shuttingDown, id, c);
        timers := timers - {id};
      }
      inFlight := {};
    }

    /** Looks at the top of a queue once: drops it, fires it, or finds nothing to do. */
    method ServeTop(kind: Kind, c: Clock, commands: seq<Command>) returns (outcome: Outcome, id: int)
      requires Valid() && inFlight == {} && queues.At(kind) != []
      modifies this`queues, this`timers, this`lastId, this`inFlight
      ensures Valid() && inFlight == {}
      ensures outcome.Nothing? ==> Left(c) == old(Left(c)) && Kept() == old(Kept()) && NoneExpired(queues.At(kind), timers, c)
      ensures outcome.Dropped? ==> Left(c) == old(Left(c)) && |queues.At(kind)| < |old(queues).At(kind)|
      ensures outcome.Dropped? ==> id in old(timers) && !old(timers)[id].active && Kept() == old(Kept()).(timers := old(timers) - {id})
      ensures outcome.Fired? ==> old(Left(c)).At(kind) != map[] && id == First(old(Left(c)).At(kind))
                                 && Left(c) == Turn(old(Left(c)), kind, commands, c)
      ensures outcome.Fired? ==> id in old(timers) && Kept() == Rung(old(Kept()), id, commands, c)
    {
      id := queues.At(kind)[0];
      if !timers[id].active {
        Drop(kind, c);
        outcome := Dropped;
      } else if timers[id].Expired(c) {
        id := Fire(kind, c, commands);
        outcome := Fired;
      } else {
        TopLast(kind, queues.At(kind), timers, c);
        outcome := Nothing;
      }
    }

    /** One half of Update: serves the queue of `kind` until its top is active and not due. Of the
        timers in `full` only inactive ones have been given up before. */
    method Serve(kind: Kind, c: Clock, script: nat -> seq<Command>, k: nat, ghost full: Book) returns (fired: seq<int>)
      requires Valid() && inFlight == {} && Ends(Left(c), kind, script, k, c) && Sparse(Kept(), full)
      modifies this`queues, this`timers, this`lastId, this`inFlight
      ensures Valid() && inFlight == {} && NoneExpired(queues.At(kind), timers, c)
      ensures Stops(old(Left(c)), kind, script, k, |fired|, c)
      ensures fired == FiredIn(old(Left(c)), kind, script, k, |fired|, c)
      ensures Left(c) == Turns(old(Left(c)), kind, script, k, |fired|, c)
      ensures Sparse(Kept(), AllRung(full, fired, script, k, c))
    {
      ghost var s := Left(c);
      ghost var m: nat :| Empty(s, kind, script, k, m, c);
      ghost var n := StopsSomewhere(s, kind, script, k, m, c);
      fired := [];
      var ended := false;
      while !ended && queues.At(kind) != []
        invariant Valid() && inFlight == {} && |fired| <= n && Served(s, Left(c), kind, script, k, fired, c)
        invariant ended ==> NoneExpired(queues.At(kind), timers, c)
        invariant Sparse(Kept(), AllRung(full, fired, script, k, c))
        decreases !ended, n - |fired|, |queues.At(kind)|
      {
        ghost var before, kept := Left(c), Kept();
        var outcome, id := ServeTop(kind, c, script(k + |fired|));
        if outcome.Fired? {
          ServedNext(s, before, Left(c), kind, script, k, fired, n, c);
          SparseRung(kept, AllRung(full, fired, script, k, c), id, script(k + |fired|), c);
          AllRungNext(full, fired, id, script, k, c);
          fired := fired + [id];
        } else if outcome.Dropped? {
          SparseDropped(kept, AllRung(full, fired, script, k, c), id);
        }
        ended := outcome.Nothing?;
      }
      NothingDue(queues.At(kind), timers, c);
      ServedAll(s, Left(c), kind, script, k, fired, n, c);
    }

    /** The same loop, stopped after at most `n` rounds. In each but the last a timer fires or an
        inactive one is given up. */
    method ServeRounds(kind: Kind, c: Clock, script: nat -> seq<Command>, k: nat, n: nat, ghost full: Book)
      returns (ended: bool, rounds: nat, fired: seq<int>)
      requires Valid() && inFlight == {} && Sparse(Kept(), full)
      modifies this`queues, this`timers, this`lastId, this`inFlight
      ensures Valid() && inFlight == {} && rounds <= n && (!ended ==> rounds == n)
      ensures Served(old(Left(c)), Left(c), kind, script, k, fired, c)
      ensures Sparse(Kept(), AllRung(full, fired, script, k, c))
      ensures var used := |fired| + |Gap(Kept(), AllRung(full, fired, script, k, c))| - |Gap(old(Kept()), full)|;
              if ended then used <= rounds <= used + 1 else rounds == used
      ensures ended ==> Stops(old(Left(c)), kind, script, k, |fired|, c)
    {
      ghost var s, gap := Left(c), |Gap(Kept(), full)|;
      fired, rounds, ended := [], 0, false;
      while !ended && rounds < n && queues.At(kind) != []
        invariant Valid() && inFlight == {} && rounds <= n && Served(s, Left(c), kind, script, k, fired, c)
        invariant Sparse(Kept(), AllRung(full, fired, script, k, c))
        invariant rounds + gap == |fired| + |Gap(Kept(), AllRung(full, fired, script, k, c))| + (if ended then 1 else 0)
        invariant ended ==> NoneExpired(queues.At(kind), timers, c)
      {
        ghost var before, kept := Left(c), Kept();
        var outcome, id := ServeTop(kind, c, script(k + |fired|));
        if outcome.Fired? {
          ServedOneMore(s, before, Left(c), kind, script, k, fired, c);
          SparseRung(kept, AllRung(full, fired, script, k, c), id, script(k + |fired|), c);
          AllRungNext(full, fired, id, script, k, c);
          fired := fired + [id];
        } else if outcome.Dropped? {
          SparseDropped(kept, AllRung(full, fired, script, k, c), id);
        }
        ended := outcome.Nothing?;
        rounds := rounds + 1;
      }
      ended := ended || queues.At(kind) == [];
      if ended {
        NothingDue(queues.At(kind), timers, c);
        ServedEnds(s, Left(c), kind, script, k, fired, c);
      }
    }

    /** The same loop with a clock that goes on, and with callbacks that may register
        anything, in each round something else. A restless timer `x` that no callback cancels
        keeps it going however large `n` is. */
    method Rounds(kind: Kind, clock: nat -> Clock, script: nat -> seq<Command>, n: nat, ghost x: int)
      returns (ended: bool, rounds: nat)
      requires Valid() && inFlight == {} && GoesOn(clock)
      requires Waits(Left(clock(0)), kind, x, clock(0)) && NeverCancelled(script, 0, x)
      modifies this`queues, this`timers, this`lastId, this`inFlight
      ensures !ended && rounds == n
      ensures Valid() && inFlight == {} && Waits(Left(clock(n)), kind, x, clock(n))
    {
      ended, rounds := false, 0;
      while rounds < n && queues.At(kind) != []
        invariant 0 <= rounds <= n && Valid() && inFlight == {}
        invariant Waits(Left(clock(rounds)), kind, x, clock(rounds))
      {
        var c := clock(rounds);
        ghost var s := Left(c);
        DuesProper(queues, timers, {}, lastId, !shuttingDown, c);
        var outcome, id := ServeTop(kind, c, script(rounds));
        if outcome.Nothing? {
          NothingDue(queues.At(kind), timers, c);
          return true, rounds;
        }
        if outcome.Fired? {
          assert x !in Cancels(script(rounds));
          TurnWaits(s, kind, script(rounds), kind, x, c);
        }
        DuesProper(queues, timers, {}, lastId, !shuttingDown, c);
        WaitsOn(queues, timers, lastId, !shuttingDown, kind, x, c, clock(rounds + 1));
        rounds := rounds + 1;
      }
    }

    /** Update: first the steady queue, then the system queue as the first half leaves it. If
        nothing is restless and callbacks register nothing due, what fires is what was due
        at the start, less what has been cancelled. What is left of all timers is what was
        there or has been registered, with those that have fired set anew or gone, and
        without some that are inactive. */
    method Update(c: Clock, script: nat -> seq<Command>) returns (steady: seq<int>, system: seq<int>)
      requires Valid() && inFlight == {} && UpdateEnds(Left(c), script, c)
      modifies this`queues, this`timers, this`lastId, this`inFlight
      ensures Valid() && inFlight == {} && NoneExpired(queues.system, timers, c)
      ensures Updated(old(Left(c)), Left(c), script, steady, system, c)
      ensures Sparse(Kept(), AllRung(old(Kept()), steady + system, script, 0, c))
      ensures forall x :: x in old(timers) ==> Fate(old(timers), timers, steady + system, script, x, c)
      ensures RestingScript(script) && NoneRestless(old(Left(c)), Steady, c) && NoneRestless(old(Left(c)), System, c) ==>
                && steady == Firing(Due(old(queues).steady, old(timers), c), Inactive(old(timers)), script, 0)
                && system == Firing(Due(old(queues).system, old(timers), c),
                                    Inactive(old(timers)) + CancelsBetween(script, 0, |steady|), script, |steady|)
    {
      hide Sparse, AllRung, Fate, Lists, Firing, Turns, FiredIn, WellQueued;
      ghost var s := Left(c);
      ghost var dueSteady, dueSystem, cancelled, known := Due(queues.steady, timers, c), Due(queues.system, timers, c), Inactive(timers), timers;
      DueLists(Steady, queues.steady, timers, c);
      DueLists(System, queues.system, timers, c);
      ghost var q, kept := queues, Kept();
      SparseSelf(q, timers, lastId, kept);
      ghost var n: nat :| Stops(s, Steady, script, 0, n, c) && Ends(Turns(s, Steady, script, 0, n, c), System, script, n, c);
      steady := Serve(Steady, c, script, 0, kept);
      StopsOnce(s, Steady, script, 0, n, |steady|, c);
      system := Serve(System, c, script, |steady|, AllRung(kept, steady, script, 0, c));
      AllRungAppend(kept, steady, system, script, 0, c);
      AllFates(q, kept, Left(c), Kept(), steady, system, script, c);
      UpdatedResting(s, Left(c), script, steady, system, dueSteady, dueSystem, cancelled, known, c);
    }

    /** Update, stopped after at most `n` rounds of its two loops. It gets to the end only if
        `UpdateEnds`; if not, it is still going on after `n` rounds, for every `n`. */
    method UpdateRounds(c: Clock, script: nat -> seq<Command>, n: nat)
      returns (ended: bool, rounds: nat, steady: seq<int>, system: seq<int>)
      requires Valid() && inFlight == {}
      modifies this`queues, this`timers, this`lastId, this`inFlight
      ensures Valid() && inFlight == {} && (!ended ==> rounds == n)
      ensures Sparse(Kept(), AllRung(old(Kept()), steady + system, script, 0, c))
      ensures var used := |steady| + |system| + |Gap(Kept(), AllRung(old(Kept()), steady + system, script, 0, c))|;
              used <= rounds <= used + if ended then 2 else 1
      ensures ended ==> UpdateEnds(old(Left(c)), script, c) && Updated(old(Left(c)), Left(c), script, steady, system, c)
      ensures !ended ==> Underway(old(Left(c)), Left(c), script, steady, system, c)
    {
      hide Sparse, AllRung, Gap, Turns, FiredIn, Turn;
      ghost var s, kept := Left(c), Kept();
      SparseSelf(queues, timers, lastId, kept);
      GapSelf(kept);
      system := [];
      ended, rounds, steady := ServeRounds(Steady, c, script, 0, n, kept);
      assert steady + system == steady;
      if ended {
        var more;
        ended, more, system := ServeRounds(System, c, script, |steady|, n - rounds, AllRung(kept, steady, script, 0, c));
        AllRungAppend(kept, steady, system, script, 0, c);
        rounds := rounds + more;
        if ended { UpdatedEnds(s, Left(c), script, steady, system, c); }
      }
    }
  }

  /** The first half is under way, or it is done and the second is. */
  ghost predicate Underway(s: Dues, u: Dues, script: nat -> seq<Command>, steady: seq<int>, system: seq<int>, c: Clock) {
    var m := Turns(s, Steady, script, 0, |steady|, c);
    || (Served(s, u, Steady, script, 0, steady, c) && system == [])
    || (Stops(s, Steady, script, 0, |steady|, c) && Served(s, m, Steady, script, 0, steady, c)
        && Served(m, u, System, script, |steady|, system, c))
  }

  lemma UpdatedEnds(s: Dues, u: Dues, script: nat -> seq<Command>, steady: seq<int>, system: seq<int>, c: Clock)
    requires Updated(s, u, script, steady, system, c)
    ensures UpdateEnds(s, script, c)
  {
    hide Turns, FiredIn;
    var m := Turns(s, Steady, script, 0, |steady|, c);
    assert Empty(m, System, script, |steady|, |system|, c);
    assert Stops(s, Steady, script, 0, |steady|, c) && Ends(m, System, script, |steady|, c);
  }

  /** What becomes of a timer that was active and that no callback cancels. It fires if and
      only if its time has come. Then it is set to its duration from now if it loops, and is
      gone if not; otherwise it stays as it is. */
  ghost predicate Fate(before: map<int, Timer>, after: map<int, Timer>, fired: seq<int>, script: nat -> seq<Command>, x: int, c: Clock)
    requires x in before
  {
    var t := before[x];
    t.active && NeverCancelled(script, 0, x) ==>
      var due := if t.kind.Steady? then t.deadline < c.steady else t.deadline <= c.system;
      var now := if t.kind.Steady? then c.steady else c.system;
      && (x in fired <==> due)
      && (!due ==> x in after && after[x] == t)
      && (due && t.loop ==> x in after && after[x] == Timer(t.kind, true, true, t.duration, now + t.duration))
      && (due && !t.loop ==> x !in after)
  }

  lemma SparseSelf(q: Queues, timers: map<int, Timer>, lastId: int, b: Book)
    requires WellKept(q, timers, {}, lastId) && b.timers == timers && b.lastId == lastId
    ensures Sparse(b, b)
  {
  }

  lemma AllFates(q: Queues, b: Book, u: Dues, b': Book, steady: seq<int>, system: seq<int>, script: nat -> seq<Command>, c: Clock)
    requires WellKept(q, b.timers, {}, b.lastId) && Updated(DuesOf(q, b.timers, b.lastId, b.open, c), u, script, steady, system, c)
    requires Sparse(b', AllRung(b, steady + system, script, 0, c))
    ensures forall x :: x in b.timers ==> Fate(b.timers, b'.timers, steady + system, script, x, c)
  {
    hide Updated, WellKept, Sparse, Fate, DuesOf;
    forall x | x in b.timers ensures Fate(b.timers, b'.timers, steady + system, script, x, c) {
      OneFate(q, b, u, b', steady, system, script, x, c);
    }
  }

  lemma OneFate(q: Queues, b: Book, u: Dues, b': Book, steady: seq<int>, system: seq<int>, script: nat -> seq<Command>, x: int, c: Clock)
    requires WellKept(q, b.timers, {}, b.lastId) && Updated(DuesOf(q, b.timers, b.lastId, b.open, c), u, script, steady, system, c)
    requires Sparse(b', AllRung(b, steady + system, script, 0, c)) && x in b.timers
    ensures Fate(b.timers, b'.timers, steady + system, script, x, c)
  {
    hide Updated, WellKept, AllRung, DuesOf;
    if b.timers[x].active && NeverCancelled(script, 0, x) {
      var s := DuesOf(q, b.timers, b.lastId, b.open, c);
      QueuedOnce(q, b.timers, b.lastId, b.open, x, c);
      UpdateFires(s, u, script, steady, system, x, c);
      RungTimer(b, steady + system, script, 0, x, c);
    }
  }

  /** A timer is among the due ones of its kind, and of no other, if and only if its time has come. */
  lemma QueuedOnce(q: Queues, timers: map<int, Timer>, lastId: int, open: bool, x: int, c: Clock)
    requires WellKept(q, timers, {}, lastId) && x in timers && timers[x].active
    ensures var s := DuesOf(q, timers, lastId, open, c);
            && x <= s.lastId == lastId
            && (x in s.steady || x in s.system <==> timers[x].Expired(c))
  {
    if x in q.steady { QueuedKind(Steady, q.steady, timers, x); }
    if x in q.system { QueuedKind(System, q.system, timers, x); }
  }

  lemma UpdateFires(s: Dues, u: Dues, script: nat -> seq<Command>, steady: seq<int>, system: seq<int>, x: int, c: Clock)
    requires Updated(s, u, script, steady, system, c) && x <= s.lastId && NeverCancelled(script, 0, x)
    ensures x in steady <==> x in s.steady
    ensures x in system <==> x in s.system
  {
    hide Turns, FiredIn, Stops, NeverCancelled;
    FiresExactly(s, Steady, script, 0, |steady|, x, c);
    var m := Turns(s, Steady, script, 0, |steady|, c);
    LaterCallbacks(script, |steady|, x);
    FiresExactly(m, System, script, |steady|, |system|, x, c);
  }

  lemma LaterCallbacks(script: nat -> seq<Command>, k: nat, x: int)
    requires NeverCancelled(script, 0, x)
    ensures NeverCancelled(script, k, x)
  {
  }

  /** One update after the other: what there is before and after it, who fires, its callbacks and clock. */
  datatype Round = Round(before: map<int, Timer>, after: map<int, Timer>, fired: seq<int>, script: nat -> seq<Command>, c: Clock)

  ghost predicate Rounded(rounds: seq<Round>, x: int) {
    && (forall i :: 0 <= i < |rounds| && x in rounds[i].before ==>
          NeverCancelled(rounds[i].script, 0, x) && Fate(rounds[i].before, rounds[i].after, rounds[i].fired, rounds[i].script, x, rounds[i].c))
    && (forall i, j :: 0 <= i < j < |rounds| && j == i + 1 ==> rounds[j].before == rounds[i].after)
  }

  /** Over any number of updates: a looping timer that has fired in the first of them and
      has not fired since fires in the last one if and only if its duration has gone by. */
  lemma {:induction false} FiresAgain(rounds: seq<Round>, x: int)
    requires 2 <= |rounds| && Rounded(rounds, x)
    requires x in rounds[0].before && rounds[0].before[x].active && rounds[0].before[x].loop && x in rounds[0].fired
    requires forall i :: 1 <= i < |rounds| - 1 ==> x !in rounds[i].fired
    ensures var t, first, last := rounds[0].before[x], rounds[0].c, rounds[|rounds| - 1];
            x in last.fired <==> if t.kind.Steady? then first.steady + t.duration < last.c.steady else first.system + t.duration <= last.c.system
  {
    SetSince(rounds, x, |rounds| - 1);
  }

  lemma {:induction false} SetSince(rounds: seq<Round>, x: int, n: nat)
    requires 1 <= n < |rounds| && Rounded(rounds, x)
    requires x in rounds[0].before && rounds[0].before[x].active && rounds[0].before[x].loop && x in rounds[0].fired
    requires forall i :: 1 <= i < n ==> x !in rounds[i].fired
    ensures var t, c := rounds[0].before[x], rounds[0].c;
            x in rounds[n].before && rounds[n].before[x] == Timer(t.kind, true, true, t.duration, c.Now(t.kind) + t.duration)
  {
    if n > 1 { SetSince(rounds, x, n - 1); }
    assert rounds[n].before == rounds[n - 1].after;
  }

  lemma Without(s: Dues, kind: Kind, id: int)
    requires id !in s.At(kind)
    ensures s.With(kind, s.At(kind) - {id}) == s
  {
    assert s.At(kind) - {id} == s.At(kind);
  }

  /** So many turns have led from `s` to `u`, and these have fired. */
  ghost predicate Served(s: Dues, u: Dues, kind: Kind, script: nat -> seq<Command>, k: nat, fired: seq<int>, c: Clock) {
    u == Turns(s, kind, script, k, |fired|, c) && fired == FiredIn(s, kind, script, k, |fired|, c)
  }

  lemma ServedOneMore(s: Dues, u: Dues, v: Dues, kind: Kind, script: nat -> seq<Command>, k: nat, fired: seq<int>, c: Clock)
    requires Served(s, u, kind, script, k, fired, c) && u.At(kind) != map[] && v == Turn(u, kind, script(k + |fired|), c)
    ensures Served(s, v, kind, script, k, fired + [First(u.At(kind))], c)
  {
    hide Turn;
  }

  lemma ServedNext(s: Dues, u: Dues, v: Dues, kind: Kind, script: nat -> seq<Command>, k: nat, fired: seq<int>, n: nat, c: Clock)
    requires Served(s, u, kind, script, k, fired, c) && u.At(kind) != map[] && v == Turn(u, kind, script(k + |fired|), c)
    requires |fired| <= n && Stops(s, kind, script, k, n, c)
    ensures |fired| < n && Served(s, v, kind, script, k, fired + [First(u.At(kind))], c)
  {
    hide Turn;
    ServedOneMore(s, u, v, kind, script, k, fired, c);
    assert !Empty(s, kind, script, k, |fired|, c);
  }

  lemma ServedAll(s: Dues, u: Dues, kind: Kind, script: nat -> seq<Command>, k: nat, fired: seq<int>, n: nat, c: Clock)
    requires Served(s, u, kind, script, k, fired, c) && u.At(kind) == map[] && |fired| <= n && Stops(s, kind, script, k, n, c)
    ensures |fired| == n
  {
    hide Turn, Turns;
    assert Empty(s, kind, script, k, |fired|, c);
  }

  lemma {:induction false} ServedEnds(s: Dues, u: Dues, kind: Kind, script: nat -> seq<Command>, k: nat, fired: seq<int>, c: Clock)
    requires Served(s, u, kind, script, k, fired, c) && u.At(kind) == map[]
    ensures Stops(s, kind, script, k, |fired|, c)
  {
    hide Turn;
    assert Empty(s, kind, script, k, |fired|, c);
    var n := StopsSomewhere(s, kind, script, k, |fired|, c);
    FiredStops(s, kind, script, k, n, |fired|, c);
  }

  /** Once nothing is due nobody fires. */
  lemma {:induction false} FiredStops(s: Dues, kind: Kind, script: nat -> seq<Command>, k: nat, i: nat, n: nat, c: Clock)
    requires i <= n && Empty(s, kind, script, k, i, c)
    ensures |FiredIn(s, kind, script, k, n, c)| <= i
  {
    hide Turn;
    if i < n {
      FiredStops(s, kind, script, k, i, n - 1, c);
      StaysEmpty(s, kind, script, k, i, n - 1, c);
    } else {
      FiredLength(s, kind, script, k, n, c);
    }
  }

  lemma {:induction false} FiredLength(s: Dues, kind: Kind, script: nat -> seq<Command>, k: nat, n: nat, c: Clock)
    ensures |FiredIn(s, kind, script, k, n, c)| <= n
  {
    hide Turn;
    if n > 0 { FiredLength(s, kind, script, k, n - 1, c); }
  }

  /** Both halves: each stops when nothing of its kind is due, and its timers fire turn by turn. */
  ghost predicate Updated(s: Dues, u: Dues, script: nat -> seq<Command>, steady: seq<int>, system: seq<int>, c: Clock) {
    var m := Turns(s, Steady, script, 0, |steady|, c);
    && Stops(s, Steady, script, 0, |steady|, c) && Served(s, m, Steady, script, 0, steady, c)
    && Stops(m, System, script, |steady|, |system|, c) && Served(m, u, System, script, |steady|, system, c)
  }

  lemma UpdatedResting(s: Dues, u: Dues, script: nat -> seq<Command>, steady: seq<int>, system: seq<int>,
                       dueSteady: seq<int>, dueSystem: seq<int>, cancelled: set<int>, timers: map<int, Timer>, c: Clock)
    requires Updated(s, u, script, steady, system, c)
    requires Lists(dueSteady, cancelled, timers, s.steady) && Lists(dueSystem, cancelled, timers, s.system)
    ensures RestingScript(script) && NoneRestless(s, Steady, c) && NoneRestless(s, System, c) ==>
              && steady == Firing(dueSteady, cancelled, script, 0)
              && system == Firing(dueSystem, cancelled + CancelsBetween(script, 0, |steady|), script, |steady|)
  {
    hide Turns, FiredIn, Stops, Lists;
    if RestingScript(script) && NoneRestless(s, Steady, c) && NoneRestless(s, System, c) {
      RestingUpdate(s, script, dueSteady, dueSystem, cancelled, timers, c);
      var f := Firing(dueSteady, cancelled, script, 0);
      StopsOnce(s, Steady, script, 0, |f|, |steady|, c);
      var m, g := Turns(s, Steady, script, 0, |f|, c), Firing(dueSystem, cancelled + CancelsBetween(script, 0, |f|), script, |f|);
      StopsOnce(m, System, script, |f|, |g|, |system|, c);
    }
  }
}
