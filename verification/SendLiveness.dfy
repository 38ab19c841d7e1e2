/**
 The senders come to rest: once no more calls are made, every step of a thread and every
 completed write brings them nearer to the end, and at the end everything has been sent.
 */
module SendLiveness {
  import opened Bytes
  import opened Options
  import opened SendProtocol
  import opened SendProgress

  // ---- A bound on what is left to do -----------------------------------------------------------

  /** What a message costs once it is in a queue: two for every byte, the rest for the thread
      that finds it sent and looks for the next one. */
  function Load(m: Message): nat {
    2 * |m.bytes| + 20
  }

  function Loads(q: seq<Message>): nat {
    if q == [] then 0 else Loads(q[..|q| - 1]) + Load(q[|q| - 1])
  }

  /** The message at hand costs less with every byte on the wire. */
  function CurrentLoad(s: State): int {
    match s.current case None => 0 case Some(m) => Load(m) - 2 * s.pos
  }

  function Queued(s: State): int {
    Loads(s.pending) + Loads(s.swapped) + CurrentLoad(s)
  }

  /** How far a thread is from leaving, of `n` threads. One that is about to count a message
      may make all the others look once more. */
  function Rank(pc: Pc, n: nat): nat {
    match pc
    case Idle => 0
    case Rechecking => 1
    case ReleasingRefused => 1
    case StartingWrite => 1
    case FindingNext => 1
    case ReleasingEmpty => 2
    case PuttingBack => 2
    case Acquiring => 3
    case Popping => 4
    case GetUnlocking => 5
    case GetSwapping => 6
    case GetLocking => 7
    case Getting => 8
    case Swapping => 9
    case CheckingStatus => 10
    case CheckingQuota => 11
    case CheckingToken => 12
    case Triggering => 13
    case Unlocking => 13
    case ReleasingSent => 13
    case Counting(_) => 14 + 10 * n
    case Pushing(m) => 15 + 10 * n + Load(m)
    case Locking(m) => 16 + 10 * n + Load(m)
    case Entering(m) => 17 + 10 * n + Load(m)
  }

  /** `busy`: the counter of the pending queue is not zero; `dry`: the other queue is empty. A
      thread that is going to find this out will look once more. */
  function Weight(pc: Pc, n: nat, busy: bool, dry: bool): nat {
    Rank(pc, n) + if busy && (pc.Rechecking? || pc.ReleasingEmpty? || (dry && AboutToPop(pc))) then 10 else 0
  }

  predicate AboutToPop(pc: Pc) {
    pc.Popping? || pc.GetUnlocking?
  }

  function Weights(pcs: seq<Pc>, n: nat, busy: bool, dry: bool): nat {
    if pcs == [] then 0 else Weights(pcs[..|pcs| - 1], n, busy, dry) + Weight(pcs[|pcs| - 1], n, busy, dry)
  }

  predicate Busy(s: State) { s.pendingCounters.count > 0 }

  predicate Dry(s: State) { s.swapped == [] }

  function Measure(s: State): int {
    Weights(s.pcs, |s.pcs|, Busy(s), Dry(s)) + Queued(s)
  }

  lemma {:induction false} WeightsChange(pcs: seq<Pc>, t: nat, pc: Pc, n: nat, busy: bool, dry: bool)
    requires t < |pcs|
    ensures Weights(pcs[t := pc], n, busy, dry) + Weight(pcs[t], n, busy, dry) == Weights(pcs, n, busy, dry) + Weight(pc, n, busy, dry)
  {
    var k := |pcs| - 1;
    if t == k {
      assert pcs[t := pc][..k] == pcs[..k];
    } else {
      assert pcs[t := pc][..k] == pcs[..k][t := pc];
      WeightsChange(pcs[..k], t, pc, n, busy, dry);
    }
  }

  lemma {:induction false} WeightsRise(pcs: seq<Pc>, n: nat, busy: bool, dry: bool, busy': bool, dry': bool)
    ensures Weights(pcs, n, busy', dry') <= Weights(pcs, n, busy, dry) + 10 * |pcs|
    ensures (busy' ==> busy) && (dry' ==> dry) ==> Weights(pcs, n, busy', dry') <= Weights(pcs, n, busy, dry)
  {
    if pcs != [] { WeightsRise(pcs[..|pcs| - 1], n, busy, dry, busy', dry'); }
  }

  lemma {:induction false} WeightsDry(pcs: seq<Pc>, n: nat, busy: bool, dry: bool, dry': bool)
    requires forall t :: 0 <= t < |pcs| ==> !AboutToPop(pcs[t])
    ensures Weights(pcs, n, busy, dry') == Weights(pcs, n, busy, dry)
  {
    if pcs != [] { WeightsDry(pcs[..|pcs| - 1], n, busy, dry, dry'); }
  }

  lemma {:induction false} LoadsFront(m: Message, q: seq<Message>)
    ensures Loads([m] + q) == Load(m) + Loads(q)
  {
    var r := [m] + q;
    if q == [] {
      assert r[..0] == [];
    } else {
      assert r[..|r| - 1] == [m] + q[..|q| - 1];
      LoadsFront(m, q[..|q| - 1]);
    }
  }

  lemma LoadsBack(q: seq<Message>, m: Message)
    ensures Loads(q + [m]) == Loads(q) + Load(m)
  {
    assert (q + [m])[..|q|] == q;
  }

  // ---- Each step takes something away ------------------------------------------------------------

  /** What the queues cost after a step of thread `t`, and whether a thread may have more to do. */
  /** What queues take on in this step. */
  function TakenOn(s: State, pc: Pc): int {
    match pc
    case Pushing(m) => Load(m)
    case FindingNext => if s.current.Some? && s.pos == |s.current.value.bytes| then -20 else 0
    case _ => 0
  }

  lemma {:induction false} GoQueued(s: State, t: nat, choice: int)
    requires t < |s.pcs| && CanGo(s, s.pcs[t], choice) && Knows(s, s.pcs[t]) && Current(s)
    ensures Queued(GoOn(s, t, choice)) == Queued(s) + TakenOn(s, s.pcs[t])
  {
    match s.pcs[t]
    case Pushing(m) => LoadsBack(s.pending, m);
    case Popping => if s.swapped != [] {
      assert s.swapped == [s.swapped[0]] + s.swapped[1..];
      LoadsFront(s.swapped[0], s.swapped[1..]);
    }
    case PuttingBack => LoadsFront(s.current.value, s.swapped);
    case GetSwapping => assert s.swapped == [];
    case FindingNext => assert s.current.Some?;
    case _ => QueuesStay(s, t, choice);
  }

  lemma {:induction false} QueuesStay(s: State, t: nat, choice: int)
    requires t < |s.pcs| && CanGo(s, s.pcs[t], choice)
    requires var pc := s.pcs[t]; !pc.Pushing? && !pc.Popping? && !pc.PuttingBack? && !pc.GetSwapping? && !pc.FindingNext?
    ensures var u := GoOn(s, t, choice); u.pending == s.pending && u.swapped == s.swapped && u.current == s.current && u.pos == s.pos
  {
  }

  lemma {:induction false} GoFlags(s: State, t: nat, choice: int)
    requires t < |s.pcs| && CanGo(s, s.pcs[t], choice)
    ensures var u := GoOn(s, t, choice);
            (Busy(u) ==> Busy(s) || s.pcs[t].Counting?) && (Dry(u) ==> Dry(s) || s.pcs[t].Popping?)
  {
  }

  /** The thread itself gets nearer to leaving, by more than the queues take on, and by more
      than the others may be kept up. */
  lemma {:induction false} GoLighter(s: State, t: nat, choice: int)
    requires t < |s.pcs| && CanGo(s, s.pcs[t], choice) && Knows(s, s.pcs[t]) && Current(s) && Counted(s) && (InMutex(s.pcs[t]) <==> s.lock == t)
    ensures var u, n := GoOn(s, t, choice), |s.pcs|;
            && |u.pcs| == n
            && Weight(u.pcs[t], n, Busy(u), Dry(u)) + TakenOn(s, s.pcs[t]) + (if s.pcs[t].Counting? then 10 * n else 0)
               < Weight(s.pcs[t], n, Busy(s), Dry(s))
  {
    if HasToken(s.pcs[t]) {
      HolderLighter(s, t, choice);
    } else if InMutex(s.pcs[t]) {
      InsideLighter(s, t, choice);
    } else {
      CountIs(s);
      OutsideLighter(s, t, choice);
    }
  }

  lemma CountIs(s: State)
    requires Counted(s)
    ensures 0 <= s.pendingCounters.count
  {
  }

  lemma {:induction false} OutsideLighter(s: State, t: nat, choice: int)
    requires t < |s.pcs| && CanGo(s, s.pcs[t], choice) && !HasToken(s.pcs[t]) && !InMutex(s.pcs[t]) && 0 <= s.pendingCounters.count
    ensures var u, n := GoOn(s, t, choice), |s.pcs|;
            && |u.pcs| == n
            && Weight(u.pcs[t], n, Busy(u), Dry(u)) + TakenOn(s, s.pcs[t]) < Weight(s.pcs[t], n, Busy(s), Dry(s))
  {
  }

  lemma {:induction false} InsideLighter(s: State, t: nat, choice: int)
    requires t < |s.pcs| && CanGo(s, s.pcs[t], choice) && !HasToken(s.pcs[t]) && InMutex(s.pcs[t])
    ensures var u, n := GoOn(s, t, choice), |s.pcs|;
            && |u.pcs| == n
            && Weight(u.pcs[t], n, Busy(u), Dry(u)) + TakenOn(s, s.pcs[t]) + (if s.pcs[t].Counting? then 10 * n else 0)
               < Weight(s.pcs[t], n, Busy(s), Dry(s))
  {
  }

  lemma {:induction false} HolderLighter(s: State, t: nat, choice: int)
    requires t < |s.pcs| && CanGo(s, s.pcs[t], choice) && Knows(s, s.pcs[t]) && Current(s) && Counted(s) && (InMutex(s.pcs[t]) <==> s.lock == t)
    requires HasToken(s.pcs[t])
    ensures var u, n := GoOn(s, t, choice), |s.pcs|;
            && |u.pcs| == n
            && Weight(u.pcs[t], n, Busy(u), Dry(u)) + TakenOn(s, s.pcs[t]) < Weight(s.pcs[t], n, Busy(s), Dry(s))
  {
    if LooksForMessage(s.pcs[t]) {
      if s.pcs[t].GetSwapping? { assert s.pendingCounters.count == |s.pending|; }
      LookingLighter(s, t, choice);
    } else {
      SendingLighter(s, t, choice);
    }
  }

  predicate LooksForMessage(pc: Pc) {
    pc.Getting? || pc.GetLocking? || pc.GetSwapping? || pc.GetUnlocking? || pc.Popping?
  }

  lemma {:induction false} LookingLighter(s: State, t: nat, choice: int)
    requires t < |s.pcs| && CanGo(s, s.pcs[t], choice) && LooksForMessage(s.pcs[t])
    requires s.pcs[t].GetSwapping? ==> s.pendingCounters.count == |s.pending|
    ensures var u, n := GoOn(s, t, choice), |s.pcs|;
            && |u.pcs| == n
            && Weight(u.pcs[t], n, Busy(u), Dry(u)) + TakenOn(s, s.pcs[t]) < Weight(s.pcs[t], n, Busy(s), Dry(s))
  {
  }

  lemma {:induction false} SendingLighter(s: State, t: nat, choice: int)
    requires t < |s.pcs| && CanGo(s, s.pcs[t], choice) && HasToken(s.pcs[t]) && !LooksForMessage(s.pcs[t])
    requires Knows(s, s.pcs[t]) && Current(s)
    ensures var u, n := GoOn(s, t, choice), |s.pcs|;
            && |u.pcs| == n
            && Weight(u.pcs[t], n, Busy(u), Dry(u)) + TakenOn(s, s.pcs[t]) < Weight(s.pcs[t], n, Busy(s), Dry(s))
  {
  }

  /** The other threads get no farther away, except that one more message is counted. */
  lemma {:induction false} OthersWeigh(s: State, u: State, t: nat)
    requires t < |s.pcs| && |u.pcs| == |s.pcs| && u.pcs == s.pcs[t := u.pcs[t]] && TokenHeld(s)
    requires (Busy(u) ==> Busy(s) || s.pcs[t].Counting?) && (Dry(u) ==> Dry(s) || s.pcs[t].Popping?)
    ensures var n := |s.pcs|;
            Weights(u.pcs, n, Busy(u), Dry(u)) + Weight(s.pcs[t], n, Busy(s), Dry(s))
              <= Weights(s.pcs, n, Busy(s), Dry(s)) + Weight(u.pcs[t], n, Busy(u), Dry(u)) + if s.pcs[t].Counting? then 10 * n else 0
  {
    hide Weight, Weights;
    var n, others := |s.pcs|, s.pcs[t := Idle];
    assert others[t := s.pcs[t]] == s.pcs && others[t := u.pcs[t]] == u.pcs;
    WeightsChange(others, t, s.pcs[t], n, Busy(s), Dry(s));
    WeightsChange(others, t, u.pcs[t], n, Busy(u), Dry(u));
    assert Weight(Idle, n, Busy(u), Dry(u)) == Weight(Idle, n, Busy(s), Dry(s)) by { IdleWeight(n, Busy(u), Dry(u)); IdleWeight(n, Busy(s), Dry(s)); }
    WeightsRise(others, n, Busy(s), Dry(s), Busy(u), Dry(u));
    if s.pcs[t].Popping? {
      forall h | 0 <= h < n ensures !AboutToPop(others[h]) {
        assert HasToken(s.pcs[t]) && (h != t && HasToken(s.pcs[h]) ==> h == t);
      }
      WeightsDry(others, n, Busy(s), Dry(s), Dry(u));
      WeightsRise(others, n, Busy(s), Dry(u), Busy(u), Dry(u));
    }
  }

  lemma IdleWeight(n: nat, busy: bool, dry: bool)
    ensures Weight(Idle, n, busy, dry) == 0
  {
  }

  /** A thread going on, or a write completed. */
  predicate Own(step: Step) {
    step.Go? || step.Complete?
  }

  lemma {:induction false} StepLighter(s: State, step: Step)
    requires Invariant(s) && Enabled(s, step) && Own(step)
    ensures Measure(Do(s, step)) < Measure(s)
  {
    hide Weight, Weights, GoOn, Counted, OnWire, InOrder, Awake, TakenOn;
    var u := Do(s, step);
    OneThread(s, step);
    if step.Go? {
      GoFlags(s, step.t, step.choice);
      GoLighter(s, step.t, step.choice);
      GoQueued(s, step.t, step.choice);
    } else {
      CompleteLighter(s, step);
    }
    OthersWeigh(s, u, step.t);
  }

  lemma {:induction false} CompleteLighter(s: State, step: Step)
    requires step.Complete? && Enabled(s, step)
    ensures var u, n := Do(s, step), |s.pcs|;
            && Busy(u) == Busy(s) && Dry(u) == Dry(s) && |u.pcs| == n && step.t < n && s.pcs[step.t] == Idle
            && Weight(u.pcs[step.t], n, Busy(u), Dry(u)) + Queued(u) < Weight(s.pcs[step.t], n, Busy(s), Dry(s)) + Queued(s)
  {
  }

  // ---- Someone can always go on --------------------------------------------------------------------

  predicate NoneEmpty(q: seq<Message>) {
    forall i :: 0 <= i < |q| ==> q[i].bytes != []
  }

  /** Messages are not empty, and the mutex is free or a thread is in it. */
  ghost predicate Solid(s: State) {
    && NoneEmpty(s.pending) && NoneEmpty(s.swapped) && (s.current.Some? ==> s.current.value.bytes != [])
    && (forall t :: 0 <= t < |s.pcs| ==> NoneEmpty(Held(s.pcs[t])))
    && -1 <= s.lock < |s.pcs|
  }

  lemma {:induction false} GoSolid(s: State, t: nat, choice: int)
    requires t < |s.pcs| && CanGo(s, s.pcs[t], choice)
    requires NoneEmpty(s.pending) && NoneEmpty(s.swapped) && (s.current.Some? ==> s.current.value.bytes != [])
    requires NoneEmpty(Held(s.pcs[t])) && -1 <= s.lock < |s.pcs|
    ensures var u := GoOn(s, t, choice);
            && NoneEmpty(u.pending) && NoneEmpty(u.swapped) && (u.current.Some? ==> u.current.value.bytes != [])
            && -1 <= u.lock < |s.pcs|
  {
    match s.pcs[t]
    case Pushing(m) => assert Held(s.pcs[t])[0] == m;
    case GetSwapping =>
    case Popping =>
    case PuttingBack =>
    case FindingNext =>
    case _ => QueuesStay(s, t, choice);
  }

  lemma {:induction false} SolidStep(s: State, step: Step)
    requires Solid(s) && Enabled(s, step)
    ensures Solid(Do(s, step))
  {
    hide GoOn;
    var u := Do(s, step);
    OneThread(s, step);
    if step.Go? {
      GoSolid(s, step.t, step.choice);
      GoHeld(s, step.t, step.choice);
    }
    forall t | 0 <= t < |u.pcs| ensures NoneEmpty(Held(u.pcs[t])) {
      if ByThread(step) && t != step.t { assert u.pcs[t] == s.pcs[t]; }
    }
  }

  /** All threads have left and no write is under way. */
  ghost predicate AtRest(s: State) {
    s.flight < 0 && forall t :: 0 <= t < |s.pcs| ==> s.pcs[t] == Idle
  }

  ghost predicate NothingToDo(s: State) {
    forall step :: Own(step) ==> !Enabled(s, step)
  }

  /** What a foreign call may return to a thread. */
  function Choice(s: State, pc: Pc): int {
    match pc
    case StartingWrite => if s.current.Some? then |s.current.value.bytes| else 0
    case FindingNext => if s.current.Some? then |s.current.value.bytes| else 0
    case _ => 1
  }

  lemma {:induction false} CanGoOn(s: State, t: nat)
    requires Solid(s) && t < |s.pcs| && s.pcs[t] != Idle && Knows(s, s.pcs[t])
    requires s.pcs[t].Locking? || s.pcs[t].GetLocking? ==> s.lock == -1
    ensures CanGo(s, s.pcs[t], Choice(s, s.pcs[t]))
  {
  }

  /** Until all are at rest a thread can go on, or the write in flight can complete. */
  lemma {:induction false} Progress(s: State) returns (step: Step)
    requires Solid(s) && MutexHeld(s) && AtHand(s) && s.pcs != [] && !AtRest(s)
    ensures Own(step) && Enabled(s, step)
  {
    if forall t :: 0 <= t < |s.pcs| ==> s.pcs[t] == Idle {
      step := Complete(0, 1);
    } else {
      var t: int :| 0 <= t < |s.pcs| && s.pcs[t] != Idle;
      if (s.pcs[t].Locking? || s.pcs[t].GetLocking?) && s.lock != -1 { t := s.lock; }
      assert Knows(s, s.pcs[t]) && s.pcs[t] != Idle;
      CanGoOn(s, t);
      step := Go(t, Choice(s, s.pcs[t]));
    }
  }

  // ---- Every run without further calls ends ----------------------------------------------------------

  /** No more calls are made; threads go on and writes complete. */
  predicate OwnSteps(steps: seq<Step>) {
    forall i :: 0 <= i < |steps| ==> Own(steps[i])
  }

  lemma {:induction false} RunsAppend(start: State, steps: seq<Step>, more: seq<Step>)
    requires Runs(start, steps) && Runs(After(start, steps), more)
    ensures Runs(start, steps + more) && After(start, steps + more) == After(After(start, steps), more)
  {
    hide Do, Enabled;
    if more == [] {
      assert steps + more == steps;
    } else {
      var n := |more| - 1;
      assert (steps + more)[..|steps| + n] == steps + more[..n] && (steps + more)[|steps| + n] == more[n];
      RunsAppend(start, steps, more[..n]);
    }
  }

  lemma {:induction false} SolidAlways(limited: bool, threads: nat, steps: seq<Step>)
    requires Runs(Start(limited, threads), steps)
    ensures Solid(After(Start(limited, threads), steps)) && |After(Start(limited, threads), steps).pcs| == threads
  {
    if steps != [] {
      hide Do, Enabled, Solid;
      SolidAlways(limited, threads, steps[..|steps| - 1]);
      SolidStep(After(Start(limited, threads), steps[..|steps| - 1]), steps[|steps| - 1]);
      OneThread(After(Start(limited, threads), steps[..|steps| - 1]), steps[|steps| - 1]);
    } else {
      SolidStart(limited, threads);
    }
  }

  lemma SolidStart(limited: bool, threads: nat)
    ensures Solid(Start(limited, threads)) && |Start(limited, threads).pcs| == threads
  {
  }

  lemma MeasureNatural(s: State)
    requires Current(s)
    ensures 0 <= Measure(s)
  {
  }

  lemma {:induction false} OwnStepsEnd(s: State, more: seq<Step>)
    requires Invariant(s) && Runs(s, more) && OwnSteps(more)
    ensures Invariant(After(s, more)) && 0 <= Measure(After(s, more)) && |more| + Measure(After(s, more)) <= Measure(s)
    ensures After(s, more).status == s.status
  {
    hide Measure, Do, Enabled, MutexHeld, TokenHeld, Counted, InOrder, OnWire, Awake, Own;
    if more == [] {
      MeasureNatural(s);
    } else {
      var n := |more| - 1;
      var u := After(s, more[..n]);
      assert OwnSteps(more[..n]) && Own(more[n]);
      OwnStepsEnd(s, more[..n]);
      InvariantStep(u, more[n]);
      StepLighter(u, more[n]);
      OwnStatus(u, more[n]);
      MeasureNatural(Do(u, more[n]));
    }
  }

  lemma {:induction false} OwnStatus(s: State, step: Step)
    requires Enabled(s, step) && Own(step)
    ensures Do(s, step).status == s.status
  {
    if step.Go? { GoStatus(s, step.t, step.choice); }
  }

  /** From any state of any run, once no more calls are made, at most so many steps remain; and
      when no step remains all threads have left and no write is under way. */
  lemma {:induction false} ComesToRest(limited: bool, threads: nat, steps: seq<Step>, more: seq<Step>)
    requires 1 <= threads && Runs(Start(limited, threads), steps) && Runs(After(Start(limited, threads), steps), more) && OwnSteps(more)
    ensures |more| <= Measure(After(Start(limited, threads), steps))
    ensures NothingToDo(After(After(Start(limited, threads), steps), more)) <==> AtRest(After(After(Start(limited, threads), steps), more))
  {
    hide Measure, Do, Invariant, Own, Solid, Enabled;
    InvariantAlways(limited, threads, steps);
    OwnStepsEnd(After(Start(limited, threads), steps), more);
    RunsAppend(Start(limited, threads), steps, more);
    RestsExactly(limited, threads, steps + more);
  }

  lemma {:induction false} RestsExactly(limited: bool, threads: nat, steps: seq<Step>)
    requires 1 <= threads && Runs(Start(limited, threads), steps)
    ensures NothingToDo(After(Start(limited, threads), steps)) <==> AtRest(After(Start(limited, threads), steps))
  {
    hide Start, After, Runs;
    var s := After(Start(limited, threads), steps);
    InvariantAlways(limited, threads, steps);
    SolidAlways(limited, threads, steps);
    if !AtRest(s) { var step := Progress(s); }
  }

  /** Such a run can always be carried on to its end. */
  lemma {:induction false} CarriedOn(limited: bool, threads: nat, steps: seq<Step>) returns (more: seq<Step>)
    requires 1 <= threads && Runs(Start(limited, threads), steps)
    ensures Runs(After(Start(limited, threads), steps), more) && OwnSteps(more)
    ensures AtRest(After(After(Start(limited, threads), steps), more))
    decreases Measure(After(Start(limited, threads), steps))
  {
    hide Measure, Do, Invariant, Own, Solid, Enabled, AtRest;
    var s := After(Start(limited, threads), steps);
    InvariantAlways(limited, threads, steps);
    SolidAlways(limited, threads, steps);
    if AtRest(s) {
      more := [];
    } else {
      var step := OneMore(s);
      assert (steps + [step])[..|steps|] == steps;
      more := CarriedOn(limited, threads, steps + [step]);
      FirstStep(s, step, more);
      more := [step] + more;
    }
  }

  lemma {:induction false} OneMore(s: State) returns (step: Step)
    requires Solid(s) && Invariant(s) && s.pcs != [] && !AtRest(s)
    ensures Own(step) && Enabled(s, step) && 0 <= Measure(Do(s, step)) < Measure(s)
  {
    step := Progress(s);
    StepLighter(s, step);
    InvariantStep(s, step);
    MeasureNatural(Do(s, step));
  }

  lemma {:induction false} FirstStep(s: State, step: Step, more: seq<Step>)
    requires Enabled(s, step) && Runs(Do(s, step), more) && Own(step) && OwnSteps(more)
    ensures Runs(s, [step] + more) && After(s, [step] + more) == After(Do(s, step), more) && OwnSteps([step] + more)
  {
    hide Do, Enabled, Own;
    assert [step][..0] == [];
    assert Runs(s, [step]) && After(s, [step]) == Do(s, step);
    RunsAppend(s, [step], more);
  }

  /** On a connected stream without a limit that is not closed and on which no write fails:
      however the calls and their steps alternate, once no more calls are made and no step
      remains, every message that was passed in has been sent, also those from before the
      connection, each once, and its bytes are on the wire. */
  lemma {:induction false} EverythingSent(threads: nat, steps: seq<Step>, more: seq<Step>)
    requires 1 <= threads && Runs(Start(false, threads), steps) && Unbroken(steps) && OwnSteps(more)
    requires After(Start(false, threads), steps).status == Connected && Runs(After(Start(false, threads), steps), more)
    requires NothingToDo(After(After(Start(false, threads), steps), more))
    ensures var u := After(After(Start(false, threads), steps), more);
            multiset(u.sent) == multiset(Sends(steps)) && u.wire == Concat(u.sent)
  {
    hide Measure, Do, Invariant, Own, Solid, Enabled, Start, Concat;
    var start := Start(false, threads);
    InvariantAlways(false, threads, steps);
    ComesToRest(false, threads, steps, more);
    OwnStepsEnd(After(start, steps), more);
    RunsAppend(start, steps, more);
    QuietMeansSent(threads, steps + more);
    UnbrokenMore(steps, more);
    AllEnqueued(false, threads, steps + more);
    InsideIdle(After(start, steps + more).pcs);
    NoMoreSends(steps, more);
  }

  lemma UnbrokenMore(steps: seq<Step>, more: seq<Step>)
    requires Unbroken(steps) && OwnSteps(more)
    ensures Unbroken(steps + more)
  {
    forall i | 0 <= i < |steps + more| ensures ByThread((steps + more)[i]) {
      if i >= |steps| { assert Own(more[i - |steps|]); }
    }
  }

  lemma {:induction false} NoMoreSends(steps: seq<Step>, more: seq<Step>)
    requires OwnSteps(more)
    ensures Sends(steps + more) == Sends(steps)
  {
    if more == [] {
      assert steps + more == steps;
    } else {
      var n := |more| - 1;
      assert (steps + more)[..|steps| + n] == steps + more[..n];
      NoMoreSends(steps, more[..n]);
      assert Own(more[n]) && Sent(more[n]) == [];
    }
  }
}
