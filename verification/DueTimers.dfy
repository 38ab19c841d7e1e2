/**
 What an update does, told without queues: only the due timers count, by kind, and each
 turn fires the first of them. Whether an update ends is decided here.
 */
module DueTimers {

  datatype Kind = Steady | System

  function Other(kind: Kind): Kind {
    if kind.Steady? then System else Steady
  }

  /** What the two clocks read. */
  datatype Clock = Clock(steady: int, system: int) {
    function Now(kind: Kind): int {
      match kind case Steady => steady case System => system
    }
  }

  /** `deadline` is end_time_point_. */
  datatype Timer = Timer(kind: Kind, active: bool, loop: bool, duration: int, deadline: int) {
    /** IsExpired: a steady timer only after its deadline, a system timer from its deadline on. */
    predicate Expired(c: Clock) {
      match kind case Steady => c.steady > deadline case System => c.system >= deadline
    }
    function Reset(c: Clock): Timer {
      this.(deadline := c.Now(kind) + duration)
    }
  }

  /** What a callback may do to the manager that runs it. */
  datatype Command = Register(kind: Kind, duration: int, loop: bool) | UnRegister(id: int)

  /** A timer armed now is not due now: for a steady timer zero will do, for a system timer
      it will not. */
  predicate Rests(kind: Kind, duration: int) {
    match kind case Steady => duration >= 0 case System => duration > 0
  }

  lemma ResetRests(t: Timer, c: Clock)
    ensures !t.Reset(c).Expired(c) <==> Rests(t.kind, t.duration)
  {
  }

  /** Fires now, and again as soon as it has been reset. */
  predicate Restless(t: Timer, c: Clock) {
    t.active && t.loop && t.Expired(c) && !Rests(t.kind, t.duration)
  }

  /** The comparison of both queues: earlier deadline first, then smaller id. */
  predicate Before(timers: map<int, Timer>, a: int, b: int)
    requires a in timers && b in timers
  {
    timers[a].deadline < timers[b].deadline || (timers[a].deadline == timers[b].deadline && a < b)
  }

  ghost predicate Sorted(q: seq<int>, timers: map<int, Timer>) {
    && (forall i :: 0 <= i < |q| ==> q[i] in timers)
    && (forall i, j :: 0 <= i < j < |q| ==> Before(timers, q[i], q[j]))
  }

  function Cancels(commands: seq<Command>): set<int> {
    set i | 0 <= i < |commands| && commands[i].UnRegister? :: commands[i].id
  }

  // ---- Turns -----------------------------------------------------------------------------

  /** The active timers that are due, the last id given out, and whether registering is
      still possible. */
  datatype Dues = Dues(steady: map<int, Timer>, system: map<int, Timer>, lastId: int, open: bool) {
    function At(kind: Kind): map<int, Timer> {
      match kind case Steady => steady case System => system
    }
    function With(kind: Kind, m: map<int, Timer>): (s: Dues)
      ensures s.At(kind) == m && s.At(Other(kind)) == At(Other(kind)) && s.lastId == lastId && s.open == open
    {
      match kind case Steady => this.(steady := m) case System => this.(system := m)
    }
  }

  function Registered(kind: Kind, duration: int, loop: bool, c: Clock): Timer {
    Timer(kind, true, loop, duration, c.Now(kind) + duration)
  }

  function Obeyed(s: Dues, command: Command, c: Clock): Dues {
    match command
    case Register(kind, duration, loop) =>
      if !s.open then s
      else if Rests(kind, duration) then s.(lastId := s.lastId + 1)
      else s.With(kind, s.At(kind)[s.lastId + 1 := Registered(kind, duration, loop, c)]).(lastId := s.lastId + 1)
    case UnRegister(id) => s.(steady := s.steady - {id}, system := s.system - {id})
  }

  function AllObeyed(s: Dues, commands: seq<Command>, c: Clock): Dues {
    if commands == [] then s else Obeyed(AllObeyed(s, commands[..|commands| - 1], c), commands[|commands| - 1], c)
  }

  lemma AllObeyedNext(s: Dues, commands: seq<Command>, n: nat, c: Clock)
    requires n < |commands|
    ensures AllObeyed(s, commands[..n + 1], c) == Obeyed(AllObeyed(s, commands[..n], c), commands[n], c)
  {
    assert commands[..n + 1][..n] == commands[..n];
  }

  ghost predicate IsFirst(m: map<int, Timer>, id: int) {
    id in m && forall x :: x in m && x != id ==> Before(m, id, x)
  }

  lemma FirstOfMore(m: map<int, Timer>, x: int, y: int)
    requires x in m && IsFirst(m - {x}, y)
    ensures IsFirst(m, if Before(m, x, y) then x else y)
  {
    var rest := m - {x};
    forall z | z in m && z != x && z != y ensures Before(m, y, z) {
      assert z in rest && Before(rest, y, z);
    }
  }

  lemma {:induction false} SomeFirst(m: map<int, Timer>)
    requires m != map[]
    ensures exists id :: IsFirst(m, id)
    decreases m.Keys
  {
    assert (forall x :: x !in m) ==> m == map[];
    var x :| x in m;
    var rest := m - {x};
    assert rest.Keys < m.Keys by { assert x !in rest.Keys; }
    if rest == map[] {
      assert forall z :: z in m && z != x ==> z in rest;
      assert IsFirst(m, x);
    } else {
      SomeFirst(rest);
      var y :| IsFirst(rest, y);
      FirstOfMore(m, x, y);
    }
  }

  ghost function First(m: map<int, Timer>): (id: int)
    requires m != map[]
    ensures IsFirst(m, id)
  {
    SomeFirst(m);
    var id :| IsFirst(m, id);
    id
  }

  lemma NotBoth(m: map<int, Timer>, a: int, b: int)
    requires a in m && b in m
    ensures !(Before(m, a, b) && Before(m, b, a))
  {
  }

  lemma FirstIs(m: map<int, Timer>, id: int)
    requires IsFirst(m, id)
    ensures m != map[] && First(m) == id
  {
    assert id in m;
    NotBoth(m, id, First(m));
  }

  /** The first due timer of a kind fires and is gone, unless it is restless: then it is due again. */
  ghost function Popped(s: Dues, kind: Kind, c: Clock): Dues
    requires s.At(kind) != map[]
  {
    var id := First(s.At(kind));
    var t := s.At(kind)[id];
    s.With(kind, if Restless(t, c) then s.At(kind)[id := t.Reset(c)] else s.At(kind) - {id})
  }

  /** One turn. The callback may cancel the timer it belongs to. */
  ghost function Turn(s: Dues, kind: Kind, commands: seq<Command>, c: Clock): Dues
    requires s.At(kind) != map[]
  {
    AllObeyed(Popped(s, kind, c), commands, c)
  }

  /** `n` turns, the first of which runs the `k`-th callback. They stop when nothing is due. */
  ghost function Turns(s: Dues, kind: Kind, script: nat -> seq<Command>, k: nat, n: nat, c: Clock): Dues {
    if n == 0 then s
    else
      var u := Turns(s, kind, script, k, n - 1, c);
      if u.At(kind) == map[] then u else Turn(u, kind, script(k + n - 1), c)
  }

  ghost predicate Empty(s: Dues, kind: Kind, script: nat -> seq<Command>, k: nat, n: nat, c: Clock) {
    Turns(s, kind, script, k, n, c).At(kind) == map[]
  }

  /** Serving the queue of a kind ends. */
  ghost predicate Ends(s: Dues, kind: Kind, script: nat -> seq<Command>, k: nat, c: Clock) {
    exists n: nat :: Empty(s, kind, script, k, n, c)
  }

  /** It ends after exactly `n` turns. */
  ghost predicate Stops(s: Dues, kind: Kind, script: nat -> seq<Command>, k: nat, n: nat, c: Clock) {
    Empty(s, kind, script, k, n, c) && forall i: nat :: i < n ==> !Empty(s, kind, script, k, i, c)
  }

  /** First the steady timers, then the system timers as the first half leaves them. */
  ghost predicate UpdateEnds(s: Dues, script: nat -> seq<Command>, c: Clock) {
    exists n: nat :: Stops(s, Steady, script, 0, n, c) && Ends(Turns(s, Steady, script, 0, n, c), System, script, n, c)
  }

  /** Who fires in `n` turns. */
  ghost function FiredIn(s: Dues, kind: Kind, script: nat -> seq<Command>, k: nat, n: nat, c: Clock): seq<int> {
    if n == 0 then []
    else
      var u := Turns(s, kind, script, k, n - 1, c);
      FiredIn(s, kind, script, k, n - 1, c) + if u.At(kind) == map[] then [] else [First(u.At(kind))]
  }

  lemma {:induction false} StaysEmpty(s: Dues, kind: Kind, script: nat -> seq<Command>, k: nat, i: nat, n: nat, c: Clock)
    requires i <= n && Empty(s, kind, script, k, i, c)
    ensures Turns(s, kind, script, k, n, c) == Turns(s, kind, script, k, i, c)
  {
    if i < n { StaysEmpty(s, kind, script, k, i, n - 1, c); }
  }

  lemma StopsOnce(s: Dues, kind: Kind, script: nat -> seq<Command>, k: nat, i: nat, n: nat, c: Clock)
    requires Stops(s, kind, script, k, i, c) && Stops(s, kind, script, k, n, c)
    ensures i == n
  {
  }

  lemma {:induction false} StopsSomewhere(s: Dues, kind: Kind, script: nat -> seq<Command>, k: nat, m: nat, c: Clock) returns (n: nat)
    requires Empty(s, kind, script, k, m, c)
    ensures n <= m && Stops(s, kind, script, k, n, c)
  {
    if m > 0 && Empty(s, kind, script, k, m - 1, c) {
      n := StopsSomewhere(s, kind, script, k, m - 1, c);
    } else {
      n := m;
      forall i: nat | i < n ensures !Empty(s, kind, script, k, i, c) {
        if Empty(s, kind, script, k, i, c) { StaysEmpty(s, kind, script, k, i, m - 1, c); }
      }
    }
  }

  // ---- What turns keep ------------------------------------------------------------------------

  /** Every entry is what it is said to be. */
  ghost predicate Proper(s: Dues, c: Clock) {
    forall kind, x :: x in s.At(kind) ==>
      s.At(kind)[x].kind == kind && s.At(kind)[x].active && s.At(kind)[x].Expired(c) && x <= s.lastId
  }

  lemma ObeyedProper(s: Dues, command: Command, c: Clock)
    requires Proper(s, c)
    ensures Proper(Obeyed(s, command, c), c)
  {
    var u := Obeyed(s, command, c);
    forall kind, x | x in u.At(kind)
      ensures u.At(kind)[x].kind == kind && u.At(kind)[x].active && u.At(kind)[x].Expired(c) && x <= u.lastId
    {
      assert x in s.At(kind) || (command.Register? && kind == command.kind && x == u.lastId);
    }
  }

  lemma {:induction false} AllObeyedProper(s: Dues, commands: seq<Command>, c: Clock)
    requires Proper(s, c)
    ensures Proper(AllObeyed(s, commands, c), c) && s.lastId <= AllObeyed(s, commands, c).lastId
    ensures AllObeyed(s, commands, c).open == s.open
  {
    if commands != [] {
      AllObeyedProper(s, commands[..|commands| - 1], c);
      ObeyedProper(AllObeyed(s, commands[..|commands| - 1], c), commands[|commands| - 1], c);
    }
  }

  lemma PoppedProper(s: Dues, kind: Kind, c: Clock)
    requires Proper(s, c) && s.At(kind) != map[]
    ensures Proper(Popped(s, kind, c), c) && Popped(s, kind, c).open == s.open
  {
    ResetRests(s.At(kind)[First(s.At(kind))], c);
  }

  lemma TurnProper(s: Dues, kind: Kind, commands: seq<Command>, c: Clock)
    requires Proper(s, c) && s.At(kind) != map[]
    ensures Proper(Turn(s, kind, commands, c), c) && Turn(s, kind, commands, c).open == s.open
  {
    PoppedProper(s, kind, c);
    AllObeyedProper(Popped(s, kind, c), commands, c);
  }

  lemma {:induction false} TurnsProper(s: Dues, kind: Kind, script: nat -> seq<Command>, k: nat, n: nat, c: Clock)
    requires Proper(s, c)
    ensures Proper(Turns(s, kind, script, k, n, c), c) && Turns(s, kind, script, k, n, c).open == s.open
  {
    if n > 0 {
      TurnsProper(s, kind, script, k, n - 1, c);
      var u := Turns(s, kind, script, k, n - 1, c);
      if u.At(kind) != map[] { TurnProper(u, kind, script(k + n - 1), c); }
    }
  }

  // ---- Restless timers ------------------------------------------------------------------------

  /** No callback from the `k`-th on cancels `x`. */
  ghost predicate NeverCancelled(script: nat -> seq<Command>, k: nat, x: int) {
    forall i: nat :: k <= i ==> x !in Cancels(script(i))
  }

  /** A restless timer of a kind is due. */
  ghost predicate Waits(s: Dues, kind: Kind, x: int, c: Clock) {
    x in s.At(kind) && Restless(s.At(kind)[x], c)
  }

  lemma {:induction false} ObeyedWaits(s: Dues, commands: seq<Command>, kind: Kind, x: int, c: Clock)
    requires Proper(s, c) && Waits(s, kind, x, c) && x !in Cancels(commands)
    ensures Waits(AllObeyed(s, commands, c), kind, x, c)
  {
    if commands != [] {
      var shorter, last := commands[..|commands| - 1], commands[|commands| - 1];
      forall i | 0 <= i < |shorter| && shorter[i].UnRegister? ensures shorter[i].id != x {
        assert commands[i] == shorter[i];
      }
      ObeyedWaits(s, shorter, kind, x, c);
      AllObeyedProper(s, shorter, c);
      assert last == UnRegister(x) ==> x in Cancels(commands);
    }
  }

  lemma TurnWaits(s: Dues, served: Kind, commands: seq<Command>, kind: Kind, x: int, c: Clock)
    requires Proper(s, c) && s.At(served) != map[] && Waits(s, kind, x, c) && x !in Cancels(commands)
    ensures Waits(Turn(s, served, commands, c), kind, x, c)
  {
    PoppedProper(s, served, c);
    ResetRests(s.At(served)[First(s.At(served))], c);
    assert Waits(Popped(s, served, c), kind, x, c);
    ObeyedWaits(Popped(s, served, c), commands, kind, x, c);
  }

  lemma {:induction false} TurnsWait(s: Dues, served: Kind, script: nat -> seq<Command>, k: nat, i: nat, n: nat, kind: Kind, x: int, c: Clock)
    requires Proper(s, c) && NeverCancelled(script, k, x) && i <= n && Waits(Turns(s, served, script, k, i, c), kind, x, c)
    ensures Waits(Turns(s, served, script, k, n, c), kind, x, c)
  {
    if i < n {
      TurnsWait(s, served, script, k, i, n - 1, kind, x, c);
      TurnsProper(s, served, script, k, n - 1, c);
      var u := Turns(s, served, script, k, n - 1, c);
      assert x !in Cancels(script(k + n - 1));
      if u.At(served) != map[] { TurnWaits(u, served, script(k + n - 1), kind, x, c); }
    }
  }

  /** A restless timer that no callback cancels keeps its queue from ever being done. */
  lemma RestlessNeverEnds(s: Dues, kind: Kind, script: nat -> seq<Command>, k: nat, x: int, c: Clock)
    requires Proper(s, c) && Waits(s, kind, x, c) && NeverCancelled(script, k, x)
    ensures !Ends(s, kind, script, k, c)
  {
    forall n: nat ensures !Empty(s, kind, script, k, n, c) {
      TurnsWait(s, kind, script, k, 0, n, kind, x, c);
    }
  }

  /** So does one of either kind for an update. */
  lemma RestlessKeepsUpdate(s: Dues, kind: Kind, script: nat -> seq<Command>, x: int, c: Clock)
    requires Proper(s, c) && Waits(s, kind, x, c) && NeverCancelled(script, 0, x)
    ensures !UpdateEnds(s, script, c)
  {
    forall n: nat | Stops(s, Steady, script, 0, n, c)
      ensures !Ends(Turns(s, Steady, script, 0, n, c), System, script, n, c)
    {
      TurnsWait(s, Steady, script, 0, 0, n, kind, x, c);
      TurnsProper(s, Steady, script, 0, n, c);
      if kind.System? { RestlessNeverEnds(Turns(s, Steady, script, 0, n, c), System, script, n, x, c); }
    }
  }

  // ---- Counting --------------------------------------------------------------------------------

  predicate AddsOne(command: Command, kind: Kind) {
    command.Register? && command.kind == kind && !Rests(kind, command.duration)
  }

  /** How many timers of a kind that are due at once these commands register. */
  function Adds(commands: seq<Command>, kind: Kind): nat {
    if commands == [] then 0
    else Adds(commands[..|commands| - 1], kind) + if AddsOne(commands[|commands| - 1], kind) then 1 else 0
  }

  /** The same for `n` callbacks, starting with the `k`-th. */
  function AddsBetween(script: nat -> seq<Command>, kind: Kind, k: nat, n: nat): nat {
    if n == 0 then 0 else AddsBetween(script, kind, k, n - 1) + Adds(script(k + n - 1), kind)
  }

  ghost predicate NoCancels(commands: seq<Command>) {
    forall i :: 0 <= i < |commands| ==> commands[i].Register?
  }

  ghost predicate NothingCancelled(script: nat -> seq<Command>) {
    forall k: nat :: NoCancels(script(k))
  }

  /** Nothing restless of this kind is registered. */
  ghost predicate LoopsRest(commands: seq<Command>, kind: Kind) {
    forall i :: 0 <= i < |commands| && AddsOne(commands[i], kind) ==> !commands[i].loop
  }

  ghost predicate NoneRestless(s: Dues, kind: Kind, c: Clock) {
    forall x :: !Waits(s, kind, x, c)
  }

  /** No timer of the kind is restless, and none that is gets registered by `n` callbacks. */
  ghost predicate Quiet(s: Dues, kind: Kind, script: nat -> seq<Command>, k: nat, n: nat, c: Clock) {
    NoneRestless(s, kind, c) && (s.open ==> forall i: nat :: k <= i < k + n ==> LoopsRest(script(i), kind))
  }

  function Arrivals(s: Dues, script: nat -> seq<Command>, kind: Kind, k: nat, n: nat): nat {
    if s.open then AddsBetween(script, kind, k, n) else 0
  }

  function One(b: bool): nat {
    if b then 1 else 0
  }

  /** Timers of a kind that fire in `n` turns. */
  function Gone(kind: Kind, served: Kind, n: nat): nat {
    if kind == served then n else 0
  }

  function More(s: Dues, commands: seq<Command>, kind: Kind): nat {
    if s.open then Adds(commands, kind) else 0
  }

  /** Of `before` timers and `more` new ones `less` have fired; if `exact`, no other has gone. */
  predicate Counts(before: nat, after: nat, less: nat, more: nat, exact: bool) {
    after + less <= before + more && (exact ==> after + less == before + more)
  }

  ghost predicate CountsOn(s: Dues, u: Dues, kind: Kind, less: nat, more: nat, exact: bool) {
    Counts(|s.At(kind).Keys|, |u.At(kind).Keys|, less, more, exact)
  }

  lemma ObeyedCount(s: Dues, command: Command, kind: Kind, c: Clock)
    requires Proper(s, c)
    ensures Counts(|s.At(kind).Keys|, |Obeyed(s, command, c).At(kind).Keys|, 0,
                   One(s.open && AddsOne(command, kind)), command.Register?)
  {
    var m, u := s.At(kind), Obeyed(s, command, c).At(kind);
    if command.UnRegister? {
      SubsetSize(u.Keys, m.Keys);
    } else if s.open && AddsOne(command, kind) {
      OneMore(m, s.lastId + 1, Registered(kind, command.duration, command.loop, c));
    } else {
      assert u == m;
    }
  }

  lemma OneMore(m: map<int, Timer>, id: int, t: Timer)
    requires id !in m
    ensures |m[id := t].Keys| == |m.Keys| + 1
  {
    assert m[id := t].Keys == m.Keys + {id};
  }

  lemma OneLess(m: map<int, Timer>, id: int)
    requires id in m
    ensures |(m - {id}).Keys| == |m.Keys| - 1
  {
    assert m.Keys == (m - {id}).Keys + {id};
  }

  lemma SubsetSize(a: set<int>, b: set<int>)
    requires a <= b
    ensures |a| <= |b|
  {
    assert b == a + (b - a) && a * (b - a) == {};
  }

  lemma {:induction false} AllObeyedCount(s: Dues, commands: seq<Command>, kind: Kind, c: Clock)
    requires Proper(s, c)
    ensures Counts(|s.At(kind).Keys|, |AllObeyed(s, commands, c).At(kind).Keys|, 0, More(s, commands, kind), NoCancels(commands))
  {
    if commands != [] {
      var shorter := commands[..|commands| - 1];
      AllObeyedCount(s, shorter, kind, c);
      AllObeyedProper(s, shorter, c);
      ObeyedCount(AllObeyed(s, shorter, c), commands[|commands| - 1], kind, c);
    }
  }

  /** A turn takes one due timer away, unless it is restless, and adds what its callback registers. */
  lemma TurnCount(s: Dues, served: Kind, commands: seq<Command>, kind: Kind, c: Clock)
    requires Proper(s, c) && s.At(served) != map[] && (kind == served ==> NoneRestless(s, served, c))
    ensures Counts(|s.At(kind).Keys|, |Turn(s, served, commands, c).At(kind).Keys|, Gone(kind, served, 1), More(s, commands, kind), NoCancels(commands))
  {
    var id := First(s.At(served));
    assert kind == served ==> !Waits(s, served, id, c);
    OneLess(s.At(served), id);
    PoppedProper(s, served, c);
    AllObeyedCount(Popped(s, served, c), commands, kind, c);
  }

  lemma {:induction false} ObeyedQuiet(s: Dues, commands: seq<Command>, kind: Kind, c: Clock)
    requires NoneRestless(s, kind, c) && (s.open ==> LoopsRest(commands, kind))
    ensures NoneRestless(AllObeyed(s, commands, c), kind, c) && AllObeyed(s, commands, c).open == s.open
  {
    if commands != [] {
      var shorter, last := commands[..|commands| - 1], commands[|commands| - 1];
      assert s.open ==> forall i :: 0 <= i < |shorter| ==> shorter[i] == commands[i];
      ObeyedQuiet(s, shorter, kind, c);
      var u, v := AllObeyed(s, shorter, c), AllObeyed(s, commands, c);
      forall x ensures !Waits(v, kind, x, c) {
        assert !Waits(u, kind, x, c);
        assert s.open && AddsOne(last, kind) ==> !last.loop;
      }
    }
  }

  lemma TurnQuiet(s: Dues, served: Kind, commands: seq<Command>, kind: Kind, c: Clock)
    requires s.At(served) != map[] && NoneRestless(s, kind, c) && (s.open ==> LoopsRest(commands, kind))
    ensures NoneRestless(Turn(s, served, commands, c), kind, c)
  {
    var u := Popped(s, served, c);
    forall x ensures !Waits(u, kind, x, c) {
      assert !Waits(s, kind, x, c) && (kind == served ==> !Waits(s, kind, First(s.At(served)), c));
    }
    ObeyedQuiet(u, commands, kind, c);
  }

  ghost predicate TurnsHappen(s: Dues, kind: Kind, script: nat -> seq<Command>, k: nat, n: nat, c: Clock) {
    forall i: nat :: i < n ==> !Empty(s, kind, script, k, i, c)
  }

  lemma {:induction false} TurnsQuiet(s: Dues, served: Kind, script: nat -> seq<Command>, k: nat, n: nat, kind: Kind, c: Clock)
    requires Proper(s, c) && Quiet(s, kind, script, k, n, c)
    ensures NoneRestless(Turns(s, served, script, k, n, c), kind, c)
  {
    if n > 0 {
      TurnsQuiet(s, served, script, k, n - 1, kind, c);
      TurnsProper(s, served, script, k, n - 1, c);
      var u := Turns(s, served, script, k, n - 1, c);
      if u.At(served) != map[] { TurnQuiet(u, served, script(k + n - 1), kind, c); }
    }
  }

  /** What `n` turns leave: what was due and what was registered, less one for every turn. */
  lemma {:induction false} TurnsCount(s: Dues, served: Kind, script: nat -> seq<Command>, k: nat, n: nat, kind: Kind, c: Clock) returns (u: Dues)
    requires Proper(s, c) && TurnsHappen(s, served, script, k, n, c) && (kind == served ==> Quiet(s, served, script, k, n, c))
    ensures u == Turns(s, served, script, k, n, c)
    ensures CountsOn(s, u, kind, Gone(kind, served, n), Arrivals(s, script, kind, k, n), NothingCancelled(script))
  {
    hide Popped, Turn, Proper, NoneRestless, Quiet, TurnsHappen, Empty, NothingCancelled;
    if n == 0 {
      u := s;
    } else {
      BeforeTurn(s, served, script, k, n, kind, c);
      var v := TurnsCount(s, served, script, k, n - 1, kind, c);
      OneMoreTurn(s, v, served, script, k, n, kind, Arrivals(s, script, kind, k, n - 1), c);
      u := Turn(v, served, script(k + n - 1), c);
    }
  }

  lemma BeforeTurn(s: Dues, served: Kind, script: nat -> seq<Command>, k: nat, n: nat, kind: Kind, c: Clock)
    requires n > 0 && Proper(s, c) && TurnsHappen(s, served, script, k, n, c) && (kind == served ==> Quiet(s, served, script, k, n, c))
    ensures TurnsHappen(s, served, script, k, n - 1, c) && (kind == served ==> Quiet(s, served, script, k, n - 1, c))
    ensures var u := Turns(s, served, script, k, n - 1, c);
            Proper(u, c) && u.open == s.open && u.At(served) != map[] && (kind == served ==> NoneRestless(u, served, c))
  {
    TurnsProper(s, served, script, k, n - 1, c);
    if kind == served { TurnsQuiet(s, served, script, k, n - 1, kind, c); }
    assert !Empty(s, served, script, k, n - 1, c);
  }

  lemma OneMoreTurn(s: Dues, u: Dues, served: Kind, script: nat -> seq<Command>, k: nat, n: nat, kind: Kind, more: nat, c: Clock)
    requires n > 0 && Proper(u, c) && u.At(served) != map[] && (kind == served ==> NoneRestless(u, served, c))
    requires CountsOn(s, u, kind, Gone(kind, served, n - 1), more, NothingCancelled(script))
    ensures CountsOn(s, Turn(u, served, script(k + n - 1), c), kind, Gone(kind, served, n),
                     more + More(u, script(k + n - 1), kind), NothingCancelled(script))
  {
    TurnCount(u, served, script(k + n - 1), kind, c);
    assert NothingCancelled(script) ==> NoCancels(script(k + n - 1));
  }

  /** After `n` turns nothing has been restless, and no more timers have come than turns gone by. */
  ghost predicate Balanced(s: Dues, kind: Kind, script: nat -> seq<Command>, k: nat, n: nat, c: Clock) {
    Quiet(s, kind, script, k, n, c) && |s.At(kind).Keys| + Arrivals(s, script, kind, k, n) <= n
  }

  /** Whatever callbacks cancel, a balance means an end. */
  lemma BalancedEnds(s: Dues, kind: Kind, script: nat -> seq<Command>, k: nat, n: nat, c: Clock) returns (i: nat)
    requires Proper(s, c) && Balanced(s, kind, script, k, n, c)
    ensures i <= n && Stops(s, kind, script, k, i, c)
  {
    if TurnsHappen(s, kind, script, k, n, c) {
      var left := TurnsCount(s, kind, script, k, n, kind, c);
      assert Turns(s, kind, script, k, n, c).At(kind) == map[];
      i := n;
    } else {
      var j: nat :| j < n && Empty(s, kind, script, k, j, c);
      i := StopsSomewhere(s, kind, script, k, j, c);
    }
  }

  lemma {:induction false} RegisteredWaits(s: Dues, commands: seq<Command>, kind: Kind, c: Clock) returns (x: int)
    requires Proper(s, c) && s.open && NoCancels(commands) && !LoopsRest(commands, kind)
    ensures Waits(AllObeyed(s, commands, c), kind, x, c)
  {
    var shorter, last := commands[..|commands| - 1], commands[|commands| - 1];
    AllObeyedProper(s, shorter, c);
    if LoopsRest(shorter, kind) {
      x := AllObeyed(s, commands, c).lastId;
      assert forall i :: 0 <= i < |shorter| ==> shorter[i] == commands[i];
      assert AddsOne(last, kind) && last.loop;
    } else {
      x := RegisteredWaits(s, shorter, kind, c);
    }
  }

  lemma {:induction false} LoudWaits(s: Dues, served: Kind, script: nat -> seq<Command>, k: nat, n: nat, kind: Kind, c: Clock) returns (x: int)
    requires Proper(s, c) && NothingCancelled(script) && TurnsHappen(s, served, script, k, n, c) && !Quiet(s, kind, script, k, n, c)
    ensures Waits(Turns(s, served, script, k, n, c), kind, x, c)
  {
    if n == 0 {
      x :| Waits(s, kind, x, c);
    } else {
      var u, commands := Turns(s, served, script, k, n - 1, c), script(k + n - 1);
      TurnsProper(s, served, script, k, n - 1, c);
      assert !Empty(s, served, script, k, n - 1, c) && NoCancels(commands);
      if Quiet(s, kind, script, k, n - 1, c) {
        PoppedProper(u, served, c);
        x := RegisteredWaits(Popped(u, served, c), commands, kind, c);
      } else {
        x := LoudWaits(s, served, script, k, n - 1, kind, c);
        TurnWaits(u, served, commands, kind, x, c);
      }
    }
  }

  /** If callbacks cancel nothing, serving a queue stops with the first balance and no sooner. */
  lemma StopsExactly(s: Dues, kind: Kind, script: nat -> seq<Command>, k: nat, n: nat, c: Clock)
    requires Proper(s, c) && NothingCancelled(script)
    ensures Stops(s, kind, script, k, n, c) <==>
              Balanced(s, kind, script, k, n, c) && forall i: nat :: i < n ==> !Balanced(s, kind, script, k, i, c)
  {
    hide Turns, Balanced;
    if Stops(s, kind, script, k, n, c) {
      StopsBalanced(s, kind, script, k, n, c);
      forall i: nat | i < n ensures !Balanced(s, kind, script, k, i, c) {
        if Balanced(s, kind, script, k, i, c) { var j := BalancedEnds(s, kind, script, k, i, c); }
      }
    }
    if Balanced(s, kind, script, k, n, c) && forall i: nat :: i < n ==> !Balanced(s, kind, script, k, i, c) {
      var j := BalancedEnds(s, kind, script, k, n, c);
      StopsBalanced(s, kind, script, k, j, c);
    }
  }

  lemma StopsBalanced(s: Dues, kind: Kind, script: nat -> seq<Command>, k: nat, n: nat, c: Clock)
    requires Proper(s, c) && NothingCancelled(script) && Stops(s, kind, script, k, n, c)
    ensures Balanced(s, kind, script, k, n, c)
  {
    if !Quiet(s, kind, script, k, n, c) {
      var x := LoudWaits(s, kind, script, k, n, kind, c);
    } else {
      var left := TurnsCount(s, kind, script, k, n, kind, c);
    }
  }

  /** The exact condition, for callbacks that cancel nothing: serving a queue ends if and only
      if some number of turns is at least the number of timers due at the start and
      registered due by so many callbacks, none of them restless. */
  lemma EndsExactly(s: Dues, kind: Kind, script: nat -> seq<Command>, k: nat, c: Clock)
    requires Proper(s, c) && NothingCancelled(script)
    ensures Ends(s, kind, script, k, c) <==> exists n: nat :: Balanced(s, kind, script, k, n, c)
  {
    if m: nat :| Empty(s, kind, script, k, m, c) {
      var n := StopsSomewhere(s, kind, script, k, m, c);
      StopsBalanced(s, kind, script, k, n, c);
    }
    if n: nat :| Balanced(s, kind, script, k, n, c) {
      var i := BalancedEnds(s, kind, script, k, n, c);
    }
  }

  /** A chain of timers that each register the next one, due at once, never ends. */
  lemma ChainNeverEnds(s: Dues, kind: Kind, script: nat -> seq<Command>, k: nat, c: Clock)
    requires Proper(s, c) && s.open && s.At(kind) != map[] && NothingCancelled(script)
    requires forall i: nat :: 0 < Adds(script(i), kind)
    ensures !Ends(s, kind, script, k, c)
  {
    EndsExactly(s, kind, script, k, c);
    forall n: nat ensures !Balanced(s, kind, script, k, n, c) {
      ChainAdds(script, kind, k, n);
      assert s.At(kind).Keys != {};
    }
  }

  lemma {:induction false} ChainAdds(script: nat -> seq<Command>, kind: Kind, k: nat, n: nat)
    requires forall i: nat :: 0 < Adds(script(i), kind)
    ensures n <= AddsBetween(script, kind, k, n)
  {
    if n > 0 { ChainAdds(script, kind, k, n - 1); }
  }

  // ---- The whole update ------------------------------------------------------------------------

  lemma {:induction false} AddsSplit(script: nat -> seq<Command>, kind: Kind, k: nat, n: nat, m: nat)
    ensures AddsBetween(script, kind, k, n + m) == AddsBetween(script, kind, k, n) + AddsBetween(script, kind, k + n, m)
  {
    if m > 0 { AddsSplit(script, kind, k, n, m - 1); }
  }

  /** The first half stops after `n` turns, and the second is balanced after `m` more, with
      what both halves have registered. */
  ghost predicate UpdateBalanced(s: Dues, script: nat -> seq<Command>, n: nat, m: nat, c: Clock) {
    && Balanced(s, Steady, script, 0, n, c) && (forall i: nat :: i < n ==> !Balanced(s, Steady, script, 0, i, c))
    && Quiet(s, System, script, 0, n + m, c) && |s.system.Keys| + Arrivals(s, script, System, 0, n + m) <= m
  }

  lemma SecondHalf(s: Dues, script: nat -> seq<Command>, n: nat, m: nat, c: Clock)
    requires Proper(s, c) && NothingCancelled(script) && Stops(s, Steady, script, 0, n, c)
    ensures Balanced(Turns(s, Steady, script, 0, n, c), System, script, n, m, c) <==>
              Quiet(s, System, script, 0, n + m, c) && |s.system.Keys| + Arrivals(s, script, System, 0, n + m) <= m
  {
    hide Popped, Turn;
    var u := Turns(s, Steady, script, 0, n, c);
    TurnsProper(s, Steady, script, 0, n, c);
    var left := TurnsCount(s, Steady, script, 0, n, System, c);
    AddsSplit(script, System, 0, n, m);
    if Quiet(s, System, script, 0, n, c) {
      TurnsQuiet(s, Steady, script, 0, n, System, c);
    } else {
      var x := LoudWaits(s, Steady, script, 0, n, System, c);
    }
  }

  /** The exact condition for an update whose callbacks cancel nothing. */
  lemma UpdateEndsExactly(s: Dues, script: nat -> seq<Command>, c: Clock)
    requires Proper(s, c) && NothingCancelled(script)
    ensures UpdateEnds(s, script, c) <==> exists n: nat, m: nat :: UpdateBalanced(s, script, n, m, c)
  {
    if n: nat :| Stops(s, Steady, script, 0, n, c) && Ends(Turns(s, Steady, script, 0, n, c), System, script, n, c) {
      var u := Turns(s, Steady, script, 0, n, c);
      TurnsProper(s, Steady, script, 0, n, c);
      EndsExactly(u, System, script, n, c);
      var m: nat :| Balanced(u, System, script, n, m, c);
      StopsExactly(s, Steady, script, 0, n, c);
      SecondHalf(s, script, n, m, c);
      assert UpdateBalanced(s, script, n, m, c);
    }
    if n: nat, m: nat :| UpdateBalanced(s, script, n, m, c) {
      StopsExactly(s, Steady, script, 0, n, c);
      SecondHalf(s, script, n, m, c);
      TurnsProper(s, Steady, script, 0, n, c);
      EndsExactly(Turns(s, Steady, script, 0, n, c), System, script, n, c);
    }
  }

  /** What a callback registers is not due at once. */
  ghost predicate RestingCommands(commands: seq<Command>) {
    forall i :: 0 <= i < |commands| && commands[i].Register? ==> Rests(commands[i].kind, commands[i].duration)
  }

  ghost predicate RestingScript(script: nat -> seq<Command>) {
    forall k: nat :: RestingCommands(script(k))
  }

  /** Nothing that loops is due at once, and nothing at all from the `settled`-th callback on. */
  ghost predicate SettlingScript(script: nat -> seq<Command>, settled: nat) {
    && (forall k: nat :: k >= settled ==> RestingCommands(script(k)))
    && (forall k: nat, kind :: LoopsRest(script(k), kind))
  }

  lemma {:induction false} RestingAdds(commands: seq<Command>, kind: Kind)
    requires RestingCommands(commands)
    ensures Adds(commands, kind) == 0
  {
    if commands != [] { RestingAdds(commands[..|commands| - 1], kind); }
  }

  lemma {:induction false} SettledAdds(script: nat -> seq<Command>, settled: nat, kind: Kind, k: nat, n: nat)
    requires SettlingScript(script, settled) && settled <= n
    ensures AddsBetween(script, kind, k, n) == AddsBetween(script, kind, k, settled)
  {
    if settled < n {
      SettledAdds(script, settled, kind, k, n - 1);
      RestingAdds(script(k + n - 1), kind);
    }
  }

  lemma SettlingEnds(s: Dues, kind: Kind, script: nat -> seq<Command>, k: nat, settled: nat, c: Clock) returns (i: nat)
    requires Proper(s, c) && NoneRestless(s, kind, c) && SettlingScript(script, settled)
    ensures Stops(s, kind, script, k, i, c)
  {
    var n := settled + |s.At(kind).Keys| + AddsBetween(script, kind, k, settled);
    SettledAdds(script, settled, kind, k, n);
    assert s.open ==> forall j: nat :: k <= j < k + n ==> LoopsRest(script(j), kind);
    i := BalancedEnds(s, kind, script, k, n, c);
  }

  // ---- Restless timers that get cancelled ----------------------------------------------------------

  /** Everything cancelled by `n` callbacks, starting with the `k`-th. */
  function CancelsBetween(script: nat -> seq<Command>, k: nat, n: nat): set<int> {
    if n == 0 then {} else CancelsBetween(script, k, n - 1) + Cancels(script(k + n - 1))
  }

  lemma {:induction false} CancelsAt(script: nat -> seq<Command>, k: nat, n: nat, i: nat)
    requires k <= i < k + n
    ensures Cancels(script(i)) <= CancelsBetween(script, k, n)
  {
    if i < k + n - 1 { CancelsAt(script, k, n - 1, i); }
  }

  lemma CancelsNext(commands: seq<Command>, n: nat)
    requires n < |commands|
    ensures forall id :: id in Cancels(commands[..n + 1]) <==> id in Cancels(commands[..n]) || commands[n] == UnRegister(id)
  {
    var more, less := commands[..n + 1], commands[..n];
    forall id ensures id in Cancels(more) <==> id in Cancels(less) || commands[n] == UnRegister(id) {
      if id in Cancels(less) {
        var i :| 0 <= i < |less| && less[i] == UnRegister(id);
        assert more[i] == UnRegister(id);
      }
      if commands[n] == UnRegister(id) { assert more[n] == UnRegister(id); }
      if id in Cancels(more) {
        var i :| 0 <= i < |more| && more[i] == UnRegister(id);
        assert i < n ==> less[i] == UnRegister(id);
      }
    }
  }

  lemma {:induction false} ObeyedCancels(s: Dues, commands: seq<Command>, kind: Kind, x: int, c: Clock)
    requires LoopsRest(commands, kind) && Waits(AllObeyed(s, commands, c), kind, x, c)
    ensures Waits(s, kind, x, c) && x !in Cancels(commands)
  {
    if commands != [] {
      var n := |commands| - 1;
      assert forall i :: 0 <= i < n ==> commands[..n][i] == commands[i];
      assert commands[n].Register? ==> commands[n] == Register(commands[n].kind, commands[n].duration, commands[n].loop);
      assert Waits(AllObeyed(s, commands[..n], c), kind, x, c) && commands[n] != UnRegister(x);
      ObeyedCancels(s, commands[..n], kind, x, c);
      CancelsNext(commands, n);
      assert commands[..n + 1] == commands;
    }
  }

  lemma TurnCancels(s: Dues, served: Kind, commands: seq<Command>, kind: Kind, x: int, c: Clock)
    requires s.At(served) != map[] && LoopsRest(commands, kind) && Waits(Turn(s, served, commands, c), kind, x, c)
    ensures Waits(s, kind, x, c) && x !in Cancels(commands)
  {
    ObeyedCancels(Popped(s, served, c), commands, kind, x, c);
  }

  /** If callbacks register nothing restless, a timer that is restless after some turns has
      been so from the start, and no callback has cancelled it. */
  lemma {:induction false} TurnsCancel(s: Dues, served: Kind, script: nat -> seq<Command>, k: nat, n: nat, kind: Kind, x: int, c: Clock)
    requires (forall i: nat :: LoopsRest(script(i), kind)) && TurnsHappen(s, served, script, k, n, c)
    requires Waits(Turns(s, served, script, k, n, c), kind, x, c)
    ensures Waits(s, kind, x, c) && x !in CancelsBetween(script, k, n)
  {
    hide Turn, Waits, LoopsRest;
    if n > 0 {
      assert !Empty(s, served, script, k, n - 1, c);
      var u := Turns(s, served, script, k, n - 1, c);
      TurnCancels(u, served, script(k + n - 1), kind, x, c);
      TurnsCancel(s, served, script, k, n - 1, kind, x, c);
    }
  }

  lemma {:induction false} TurnsSplit(s: Dues, kind: Kind, script: nat -> seq<Command>, k: nat, n: nat, m: nat, c: Clock)
    ensures Turns(s, kind, script, k, n + m, c) == Turns(Turns(s, kind, script, k, n, c), kind, script, k + n, m, c)
  {
    hide Turn;
    if m > 0 { TurnsSplit(s, kind, script, k, n, m - 1, c); }
  }

  /** So many callbacks cancel all of these. */
  lemma {:induction false} AllCancelled(xs: set<int>, script: nat -> seq<Command>, k: nat) returns (n: nat)
    requires forall x :: x in xs ==> !NeverCancelled(script, k, x)
    ensures xs <= CancelsBetween(script, k, n)
    decreases xs
  {
    if xs == {} {
      n := 0;
    } else {
      assert (forall x :: x !in xs) ==> xs == {};
      var x :| x in xs;
      var m := AllCancelled(xs - {x}, script, k);
      var i: nat :| k <= i && x in Cancels(script(i));
      n := if i < k + m then m else i + 1 - k;
      CancelsAt(script, k, n, i);
      forall y | y in xs - {x} ensures y in CancelsBetween(script, k, n) { MoreCancels(script, k, m, n); }
    }
  }

  lemma {:induction false} MoreCancels(script: nat -> seq<Command>, k: nat, m: nat, n: nat)
    requires m <= n
    ensures CancelsBetween(script, k, m) <= CancelsBetween(script, k, n)
  {
    if m < n { MoreCancels(script, k, m, n - 1); }
  }

  /** If callbacks stop registering timers that are due at once, none of which loops, serving a
      queue ends if and only if every restless timer is cancelled by some callback. */
  lemma SettlingEndsExactly(s: Dues, kind: Kind, script: nat -> seq<Command>, k: nat, settled: nat, c: Clock)
    requires Proper(s, c) && SettlingScript(script, settled)
    ensures Ends(s, kind, script, k, c) <==> forall x :: Waits(s, kind, x, c) ==> !NeverCancelled(script, k, x)
  {
    hide Turn, Waits, NeverCancelled, SettlingScript, Proper;
    if Ends(s, kind, script, k, c) {
      forall x | Waits(s, kind, x, c) ensures !NeverCancelled(script, k, x) {
        if NeverCancelled(script, k, x) { RestlessNeverEnds(s, kind, script, k, x, c); }
      }
    }
    if forall x :: Waits(s, kind, x, c) ==> !NeverCancelled(script, k, x) {
      CancelledEnds(s, kind, script, k, settled, c);
    }
  }

  lemma CancelledEnds(s: Dues, kind: Kind, script: nat -> seq<Command>, k: nat, settled: nat, c: Clock)
    requires Proper(s, c) && SettlingScript(script, settled) && forall x :: Waits(s, kind, x, c) ==> !NeverCancelled(script, k, x)
    ensures Ends(s, kind, script, k, c)
  {
    hide Turn, Restless, NeverCancelled;
    var restless := set x | x in s.At(kind) && Waits(s, kind, x, c);
    var n := AllCancelled(restless, script, k);
    if TurnsHappen(s, kind, script, k, n, c) {
      var u := Turns(s, kind, script, k, n, c);
      forall x ensures !Waits(u, kind, x, c) {
        if Waits(u, kind, x, c) { TurnsCancel(s, kind, script, k, n, kind, x, c); }
      }
      TurnsProper(s, kind, script, k, n, c);
      var m := SettlingEnds(u, kind, script, k + n, settled, c);
      TurnsSplit(s, kind, script, k, n, m, c);
      assert Empty(s, kind, script, k, n + m, c);
    }
  }

  /** The same for an update. */
  lemma SettlingUpdateExactly(s: Dues, script: nat -> seq<Command>, settled: nat, c: Clock)
    requires Proper(s, c) && SettlingScript(script, settled)
    ensures UpdateEnds(s, script, c) <==> forall kind, x :: Waits(s, kind, x, c) ==> !NeverCancelled(script, 0, x)
  {
    hide Turn, Waits, NeverCancelled, SettlingScript, Proper;
    if UpdateEnds(s, script, c) {
      forall kind, x | Waits(s, kind, x, c) ensures !NeverCancelled(script, 0, x) {
        if NeverCancelled(script, 0, x) { RestlessKeepsUpdate(s, kind, script, x, c); }
      }
    }
    if forall kind, x :: Waits(s, kind, x, c) ==> !NeverCancelled(script, 0, x) {
      CancelledUpdateEnds(s, script, settled, c);
    }
  }

  lemma CancelledUpdateEnds(s: Dues, script: nat -> seq<Command>, settled: nat, c: Clock)
    requires Proper(s, c) && SettlingScript(script, settled) && forall kind, x :: Waits(s, kind, x, c) ==> !NeverCancelled(script, 0, x)
    ensures UpdateEnds(s, script, c)
  {
    hide Turn, Waits, Proper;
    SettlingEndsExactly(s, Steady, script, 0, settled, c);
    var m: nat :| Empty(s, Steady, script, 0, m, c);
    var n := StopsSomewhere(s, Steady, script, 0, m, c);
    var u := Turns(s, Steady, script, 0, n, c);
    forall x | Waits(u, System, x, c) ensures !NeverCancelled(script, n, x) {
      TurnsCancel(s, Steady, script, 0, n, System, x, c);
      var i: nat :| x in Cancels(script(i));
      if i < n { CancelsAt(script, 0, n, i); }
    }
    TurnsProper(s, Steady, script, 0, n, c);
    SettlingEndsExactly(u, System, script, n, settled, c);
  }

  // ---- What fires when callbacks register nothing due -------------------------------------------

  /** The due timers in order; each fires in its turn unless it has been cancelled by
      then. `script(k)` is what the k-th callback does. */
  function Firing(due: seq<int>, cancelled: set<int>, script: nat -> seq<Command>, k: nat): seq<int> {
    if due == [] then []
    else if due[0] in cancelled then Firing(due[1..], cancelled, script, k)
    else [due[0]] + Firing(due[1..], cancelled + Cancels(script(k)), script, k + 1)
  }

  /** The due timers of a sorted queue are its first ones. */
  function Due(q: seq<int>, timers: map<int, Timer>, c: Clock): seq<int> {
    if q != [] && q[0] in timers && timers[q[0]].Expired(c) then [q[0]] + Due(q[1..], timers, c) else []
  }

  ghost predicate DueFirst(q: seq<int>, timers: map<int, Timer>, c: Clock, due: seq<int>) {
    && due <= q
    && (forall i :: 0 <= i < |q| ==> q[i] in timers)
    && (forall i :: 0 <= i < |q| ==> (timers[q[i]].Expired(c) <==> i < |due|))
  }

  lemma {:induction false} DueIsFirst(q: seq<int>, timers: map<int, Timer>, c: Clock)
    requires Sorted(q, timers) && forall i, j :: 0 <= i < |q| && 0 <= j < |q| ==> timers[q[i]].kind == timers[q[j]].kind
    ensures DueFirst(q, timers, c, Due(q, timers, c))
  {
    if q != [] && timers[q[0]].Expired(c) {
      DueIsFirst(q[1..], timers, c);
      assert forall i :: 0 < i < |q| ==> q[i] == q[1..][i - 1];
    } else if q != [] {
      assert forall i :: 0 < i < |q| ==> Before(timers, q[0], q[i]);
    }
  }

  /** Each due timer fires at most once, in the order of the queue, and only due ones do. */
  lemma {:induction false} FiringInOrder(due: seq<int>, cancelled: set<int>, script: nat -> seq<Command>, k: nat, timers: map<int, Timer>)
    requires Sorted(due, timers)
    ensures var f := Firing(due, cancelled, script, k);
            && Sorted(f, timers)
            && (forall i :: 0 <= i < |f| ==> f[i] in due && f[i] !in cancelled)
  {
    if due != [] {
      var cancelled' := if due[0] in cancelled then cancelled else cancelled + Cancels(script(k));
      var k' := if due[0] in cancelled then k else k + 1;
      FiringInOrder(due[1..], cancelled', script, k', timers);
      var f := Firing(due[1..], cancelled', script, k');
      forall i | 0 <= i < |f| ensures Before(timers, due[0], f[i]) {
        var j :| 0 <= j < |due[1..]| && due[1..][j] == f[i];
        assert due[j + 1] == f[i];
      }
    }
  }

  /** A due timer that nobody cancels does fire. */
  lemma {:induction false} UncancelledFires(due: seq<int>, cancelled: set<int>, script: nat -> seq<Command>, k: nat, id: int)
    requires id in due && id !in cancelled && NeverCancelled(script, k, id)
    ensures id in Firing(due, cancelled, script, k)
  {
    if due[0] in cancelled {
      UncancelledFires(due[1..], cancelled, script, k, id);
    } else if due[0] != id {
      UncancelledFires(due[1..], cancelled + Cancels(script(k)), script, k + 1, id);
      assert id in ([due[0]] + Firing(due[1..], cancelled + Cancels(script(k)), script, k + 1));
    }
  }

  /** Such commands only take timers away. */
  lemma {:induction false} RestingObeyed(s: Dues, commands: seq<Command>, kind: Kind, c: Clock)
    requires RestingCommands(commands)
    ensures AllObeyed(s, commands, c).At(kind) == s.At(kind) - Cancels(commands)
  {
    if commands == [] {
      assert Cancels(commands) == {};
    } else {
      var n := |commands| - 1;
      RestingObeyed(s, commands[..n], kind, c);
      CancelsNext(commands, n);
      assert commands[..n + 1] == commands;
      assert Cancels(commands) == if commands[n].UnRegister? then Cancels(commands[..n]) + {commands[n].id} else Cancels(commands[..n]);
    }
  }

  /** The first of `n + 1` turns, and the others. */
  lemma {:induction false} TurnsFront(s: Dues, kind: Kind, script: nat -> seq<Command>, k: nat, n: nat, c: Clock)
    requires s.At(kind) != map[]
    ensures var u := Turn(s, kind, script(k), c);
            && Turns(s, kind, script, k, n + 1, c) == Turns(u, kind, script, k + 1, n, c)
            && FiredIn(s, kind, script, k, n + 1, c) == [First(s.At(kind))] + FiredIn(u, kind, script, k + 1, n, c)
  {
    hide Turn;
    if n > 0 { TurnsFront(s, kind, script, k, n - 1, c); }
  }

  /** Of `due`, what has not been cancelled is what is due. */
  ghost predicate Lists(due: seq<int>, cancelled: set<int>, timers: map<int, Timer>, m: map<int, Timer>) {
    && Sorted(due, timers)
    && (forall x :: x in m <==> x in due && x !in cancelled)
    && (forall x :: x in m ==> x in timers && m[x].deadline == timers[x].deadline)
  }

  lemma ListsFirst(due: seq<int>, cancelled: set<int>, timers: map<int, Timer>, m: map<int, Timer>)
    requires Lists(due, cancelled, timers, m) && due != [] && due[0] !in cancelled
    ensures m != map[] && First(m) == due[0]
  {
    var id := due[0];
    assert id in m;
    forall x | x in m && x != id ensures Before(m, id, x) {
      var i :| 0 <= i < |due| && due[i] == x;
      assert Before(timers, due[0], due[i]);
    }
    FirstIs(m, id);
  }

  lemma ListsRest(due: seq<int>, cancelled: set<int>, more: set<int>, timers: map<int, Timer>, m: map<int, Timer>)
    requires Lists(due, cancelled, timers, m) && due != []
    ensures due[0] in cancelled ==> Lists(due[1..], cancelled, timers, m)
    ensures Lists(due[1..], cancelled + more, timers, m - {due[0]} - more)
  {
    forall x | x in due ensures x == due[0] || x in due[1..] {
      var i :| 0 <= i < |due| && due[i] == x;
      assert i > 0 ==> due[1..][i - 1] == x;
    }
    forall x | x in due[1..] ensures x in due && x != due[0] {
      var i :| 0 <= i < |due[1..]| && due[1..][i] == x;
      assert due[i + 1] == x && Before(timers, due[0], due[i + 1]);
    }
    assert forall i :: 0 <= i < |due[1..]| ==> due[1..][i] == due[i + 1];
  }

  /** If callbacks register nothing due, the due timers fire in order, each unless it has been
      cancelled by then, and that is all. */
  lemma {:induction false} RestingTurns(s: Dues, kind: Kind, script: nat -> seq<Command>, k: nat, due: seq<int>, cancelled: set<int>,
                                        timers: map<int, Timer>, c: Clock)
    requires RestingScript(script) && NoneRestless(s, kind, c) && Lists(due, cancelled, timers, s.At(kind))
    ensures var f := Firing(due, cancelled, script, k);
            Stops(s, kind, script, k, |f|, c) && FiredIn(s, kind, script, k, |f|, c) == f
    decreases |due|
  {
    if due == [] {
      assert forall x :: x !in s.At(kind);
      assert s.At(kind) == map[];
    } else if due[0] in cancelled {
      ListsRest(due, cancelled, {}, timers, s.At(kind));
      RestingTurns(s, kind, script, k, due[1..], cancelled, timers, c);
    } else {
      ListsFirst(due, cancelled, timers, s.At(kind));
      RestingTurn(s, kind, script(k), kind, c);
      ListsRest(due, cancelled, Cancels(script(k)), timers, s.At(kind));
      var u := Turn(s, kind, script(k), c);
      RestingTurns(u, kind, script, k + 1, due[1..], cancelled + Cancels(script(k)), timers, c);
      StopsFront(s, kind, script, k, |Firing(due, cancelled, script, k)| - 1, c);
    }
  }

  lemma RestingTurn(s: Dues, served: Kind, commands: seq<Command>, kind: Kind, c: Clock)
    requires s.At(served) != map[] && RestingCommands(commands) && NoneRestless(s, served, c)
    ensures var u := Turn(s, served, commands, c);
            && u.At(kind) == (if kind == served then s.At(kind) - {First(s.At(kind))} else s.At(kind)) - Cancels(commands)
            && (NoneRestless(s, kind, c) ==> NoneRestless(u, kind, c))
  {
    assert !Waits(s, served, First(s.At(served)), c);
    RestingObeyed(Popped(s, served, c), commands, kind, c);
    var u := Turn(s, served, commands, c);
    forall x | NoneRestless(s, kind, c) ensures !Waits(u, kind, x, c) {
      assert !Waits(s, kind, x, c);
    }
  }

  lemma StopsFront(s: Dues, kind: Kind, script: nat -> seq<Command>, k: nat, n: nat, c: Clock)
    requires s.At(kind) != map[] && Stops(Turn(s, kind, script(k), c), kind, script, k + 1, n, c)
    ensures Stops(s, kind, script, k, n + 1, c)
    ensures FiredIn(s, kind, script, k, n + 1, c) == [First(s.At(kind))] + FiredIn(Turn(s, kind, script(k), c), kind, script, k + 1, n, c)
  {
    hide Turn;
    TurnsFront(s, kind, script, k, n, c);
    forall i: nat | i < n + 1 ensures !Empty(s, kind, script, k, i, c) {
      if i > 0 {
        TurnsFront(s, kind, script, k, i - 1, c);
        assert !Empty(Turn(s, kind, script(k), c), kind, script, k + 1, i - 1, c);
      }
    }
  }

  /** Meanwhile timers of the other kind only get cancelled. */
  lemma {:induction false} RestingOthers(s: Dues, served: Kind, script: nat -> seq<Command>, k: nat, n: nat, c: Clock)
    requires RestingScript(script) && NoneRestless(s, served, c) && NoneRestless(s, Other(served), c)
    requires TurnsHappen(s, served, script, k, n, c)
    ensures var u := Turns(s, served, script, k, n, c);
            && NoneRestless(u, served, c) && NoneRestless(u, Other(served), c)
            && u.At(Other(served)) == s.At(Other(served)) - CancelsBetween(script, k, n)
  {
    hide Turn;
    if n > 0 {
      RestingOthers(s, served, script, k, n - 1, c);
      assert !Empty(s, served, script, k, n - 1, c);
      var u := Turns(s, served, script, k, n - 1, c);
      RestingTurn(u, served, script(k + n - 1), served, c);
      RestingTurn(u, served, script(k + n - 1), Other(served), c);
    }
  }

  /** Both halves of an update. */
  lemma RestingUpdate(s: Dues, script: nat -> seq<Command>, steady: seq<int>, system: seq<int>, cancelled: set<int>,
                      timers: map<int, Timer>, c: Clock)
    requires RestingScript(script) && NoneRestless(s, Steady, c) && NoneRestless(s, System, c)
    requires Lists(steady, cancelled, timers, s.steady) && Lists(system, cancelled, timers, s.system)
    ensures var f := Firing(steady, cancelled, script, 0);
            var g := Firing(system, cancelled + CancelsBetween(script, 0, |f|), script, |f|);
            var u := Turns(s, Steady, script, 0, |f|, c);
            && Stops(s, Steady, script, 0, |f|, c) && FiredIn(s, Steady, script, 0, |f|, c) == f
            && Stops(u, System, script, |f|, |g|, c) && FiredIn(u, System, script, |f|, |g|, c) == g
  {
    hide Turns, FiredIn;
    var f := Firing(steady, cancelled, script, 0);
    RestingTurns(s, Steady, script, 0, steady, cancelled, timers, c);
    RestingOthers(s, Steady, script, 0, |f|, c);
    var u := Turns(s, Steady, script, 0, |f|, c);
    assert Lists(system, cancelled + CancelsBetween(script, 0, |f|), timers, u.system);
    RestingTurns(u, System, script, |f|, system, cancelled + CancelsBetween(script, 0, |f|), timers, c);
  }

  // ---- Who fires -----------------------------------------------------------------------------------

  lemma {:induction false} ObeyedKeeps(s: Dues, commands: seq<Command>, kind: Kind, x: int, c: Clock)
    requires x <= s.lastId && (x in s.At(kind) ==> x !in Cancels(commands))
    ensures var u := AllObeyed(s, commands, c); s.lastId <= u.lastId && (x in u.At(kind) <==> x in s.At(kind))
  {
    if commands != [] {
      var n := |commands| - 1;
      CancelsNext(commands, n);
      assert commands[..n + 1] == commands;
      ObeyedKeeps(s, commands[..n], kind, x, c);
      assert x in s.At(kind) ==> commands[n] != UnRegister(x);
    }
  }

  lemma TurnKeeps(s: Dues, served: Kind, commands: seq<Command>, kind: Kind, x: int, c: Clock)
    requires s.At(served) != map[] && x <= s.lastId && (x in s.At(kind) ==> x !in Cancels(commands))
    ensures var u := Turn(s, served, commands, c);
            && s.lastId <= u.lastId && (x in u.At(kind) ==> x in s.At(kind))
            && (x in s.At(kind) && (kind != served || x != First(s.At(served))) ==> x in u.At(kind))
  {
    ObeyedKeeps(Popped(s, served, c), commands, kind, x, c);
  }

  /** A timer that nobody cancels stays due until it fires, and one that is not due does
      not become due. */
  lemma {:induction false} FiresOrStays(s: Dues, served: Kind, script: nat -> seq<Command>, k: nat, n: nat, kind: Kind, x: int, c: Clock)
    requires x <= s.lastId && NeverCancelled(script, k, x)
    ensures var u := Turns(s, served, script, k, n, c);
            && s.lastId <= u.lastId && (x in u.At(kind) ==> x in s.At(kind))
            && (x in s.At(kind) ==> x in u.At(kind) || (kind == served && x in FiredIn(s, served, script, k, n, c)))
            && (kind == served && x in FiredIn(s, served, script, k, n, c) ==> x in s.At(kind))
  {
    hide Turn;
    if n > 0 {
      FiresOrStays(s, served, script, k, n - 1, kind, x, c);
      var u := Turns(s, served, script, k, n - 1, c);
      if u.At(served) != map[] { TurnKeeps(u, served, script(k + n - 1), kind, x, c); }
    }
  }

  /** So once a queue has been served, it has fired if and only if it was due. */
  lemma FiresExactly(s: Dues, kind: Kind, script: nat -> seq<Command>, k: nat, n: nat, x: int, c: Clock)
    requires x <= s.lastId && NeverCancelled(script, k, x) && Stops(s, kind, script, k, n, c)
    ensures x in FiredIn(s, kind, script, k, n, c) <==> x in s.At(kind)
    ensures Turns(s, kind, script, k, n, c).lastId >= s.lastId
    ensures x in Turns(s, kind, script, k, n, c).At(Other(kind)) <==> x in s.At(Other(kind))
  {
    FiresOrStays(s, kind, script, k, n, kind, x, c);
    FiresOrStays(s, kind, script, k, n, Other(kind), x, c);
  }

  // ---- Re-arming ---------------------------------------------------------------------------------

  ghost predicate Absent(s: Dues, id: int) {
    id <= s.lastId && id !in s.steady && id !in s.system
  }

  /** `id` is in `u` in addition, unless it is `gone`. */
  ghost predicate Adding(s: Dues, u: Dues, kind: Kind, id: int, r: Timer, gone: bool) {
    Absent(s, id) && u == if gone then s else s.With(kind, s.At(kind)[id := r])
  }

  lemma LateOne(s: Dues, u: Dues, kind: Kind, id: int, r: Timer, gone: bool, command: Command, c: Clock)
    requires Adding(s, u, kind, id, r, gone)
    ensures Adding(Obeyed(s, command, c), Obeyed(u, command, c), kind, id, r, gone || command == UnRegister(id))
  {
    if !gone {
      match command {
        case Register(k, duration, loop) => LateRegister(s, u, kind, id, r, k, duration, loop, c);
        case UnRegister(x) => LateUnRegister(s, u, kind, id, r, x, c);
      }
    }
  }

  lemma LateRegister(s: Dues, u: Dues, kind: Kind, id: int, r: Timer, k: Kind, duration: int, loop: bool, c: Clock)
    requires Adding(s, u, kind, id, r, false)
    ensures Adding(Obeyed(s, Register(k, duration, loop), c), Obeyed(u, Register(k, duration, loop), c), kind, id, r, false)
  {
    var s', u' := Obeyed(s, Register(k, duration, loop), c), Obeyed(u, Register(k, duration, loop), c);
    assert u'.At(kind) == s'.At(kind)[id := r];
    assert u'.At(Other(kind)) == s'.At(Other(kind));
  }

  lemma LateUnRegister(s: Dues, u: Dues, kind: Kind, id: int, r: Timer, x: int, c: Clock)
    requires Adding(s, u, kind, id, r, false)
    ensures Adding(Obeyed(s, UnRegister(x), c), Obeyed(u, UnRegister(x), c), kind, id, r, x == id)
  {
    var s', u' := Obeyed(s, UnRegister(x), c), Obeyed(u, UnRegister(x), c);
    assert u'.At(kind) == if x == id then s'.At(kind) else s'.At(kind)[id := r];
    assert u'.At(Other(kind)) == s'.At(Other(kind));
  }

  /** Re-arming after the callback is as good as before it, if a timer cancelled meanwhile is not due. */
  lemma {:induction false} Late(s: Dues, commands: seq<Command>, kind: Kind, id: int, r: Timer, c: Clock)
    requires Absent(s, id)
    ensures Adding(AllObeyed(s, commands, c), AllObeyed(s.With(kind, s.At(kind)[id := r]), commands, c), kind, id, r, id in Cancels(commands))
  {
    if commands != [] {
      var n := |commands| - 1;
      var u := s.With(kind, s.At(kind)[id := r]);
      Late(s, commands[..n], kind, id, r, c);
      CancelsNext(commands, n);
      assert commands[..n + 1] == commands;
      LateOne(AllObeyed(s, commands[..n], c), AllObeyed(u, commands[..n], c), kind, id, r, id in Cancels(commands[..n]), commands[n], c);
    }
  }

  /** A chain in one of the queues keeps an update from ending. */
  lemma ChainKeepsUpdate(s: Dues, kind: Kind, script: nat -> seq<Command>, c: Clock)
    requires Proper(s, c) && s.open && s.At(kind) != map[] && NothingCancelled(script)
    requires forall i: nat :: 0 < Adds(script(i), kind)
    ensures !UpdateEnds(s, script, c)
  {
    if kind.Steady? {
      ChainNeverEnds(s, Steady, script, 0, c);
      forall n: nat ensures !Stops(s, Steady, script, 0, n, c) {
        assert !Empty(s, Steady, script, 0, n, c);
      }
    } else {
      ChainUnbalanced(s, script, c);
      UpdateEndsExactly(s, script, c);
    }
  }

  lemma ChainUnbalanced(s: Dues, script: nat -> seq<Command>, c: Clock)
    requires s.open && s.system != map[] && forall i: nat :: 0 < Adds(script(i), System)
    ensures forall n: nat, m: nat :: !UpdateBalanced(s, script, n, m, c)
  {
    hide Balanced, Quiet, Adds, AddsBetween;
    assert (forall x :: x !in s.system) ==> s.system == map[];
    assert s.system.Keys != {};
    forall n: nat, m: nat ensures !UpdateBalanced(s, script, n, m, c) { ChainAdds(script, System, 0, n + m); }
  }

  // ---- Three updates --------------------------------------------------------------------------------

  /** One system timer of duration zero, just registered. */
  function OneZero(loop: bool, c: Clock): Dues {
    Dues(map[], map[1 := Registered(System, 0, loop, c)], 1, true)
  }

  function Always(commands: seq<Command>): nat -> seq<Command> {
    k => commands
  }

  /** If it loops and its callback does nothing, the update does not end. */
  lemma ZeroLoopNeverEnds(c: Clock)
    ensures !UpdateEnds(OneZero(true, c), Always([]), c)
  {
    RestlessKeepsUpdate(OneZero(true, c), System, Always([]), 1, c);
  }

  /** If its callback cancels it, the update ends. */
  lemma ZeroLoopCancelled(c: Clock)
    ensures UpdateEnds(OneZero(true, c), Always([UnRegister(1)]), c)
  {
    assert [UnRegister(1)][0] == UnRegister(1);
    assert 1 in Cancels(Always([UnRegister(1)])(0));
    SettlingUpdateExactly(OneZero(true, c), Always([UnRegister(1)]), 0, c);
  }

  /** If it does not loop and its callback registers another one, the update does not end. */
  lemma ZeroChainNeverEnds(c: Clock)
    ensures !UpdateEnds(OneZero(false, c), Always([Register(System, 0, false)]), c)
  {
    var s, script := OneZero(false, c), Always([Register(System, 0, false)]);
    assert 1 in s.system;
    forall i: nat ensures 0 < Adds(script(i), System) {
      assert script(i)[0] == Register(System, 0, false) && |script(i)| == 1;
    }
    ChainKeepsUpdate(s, System, script, c);
  }
}
