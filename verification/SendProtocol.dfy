/**
 The sending half of a message stream: any number of threads run async_send_message and
 trigger_send while writes complete. A step is what one thread does between two accesses
 to what they share; steps of different threads alternate in any order.
 */
module SendProtocol {
  import opened Bytes
  import opened Options

  /** A message in a ReadBuffer: its bytes, and the size of the blocks that hold them. */
  datatype Message = Message(bytes: seq<byte>, blockBytes: nat)

  datatype Status = Initial | Connected | Closed

  /** What a thread is about to do. */
  datatype Pc =
    | Idle
    // async_send_message, put_into_pending_queue
    | Entering(m: Message) | Locking(m: Message) | Pushing(m: Message) | Counting(m: Message) | Unlocking
    // trigger_send, and try_start_send up to the compare-and-swap
    | Triggering | CheckingToken | CheckingQuota | CheckingStatus | Swapping
    // get_from_pending_queue, with the token
    | Getting | GetLocking | GetSwapping | GetUnlocking | Popping
    // the rest of try_start_send
    | Acquiring | StartingWrite | PuttingBack | ReleasingRefused | ReleasingEmpty | Rechecking
    // on_write_some
    | FindingNext | ReleasingSent

  /** The three counters kept for a queue. */
  datatype Counters = Counters(count: int, data: int, blocks: int)

  function Plus(c: Counters, m: Message): Counters {
    Counters(c.count + 1, c.data + |m.bytes|, c.blocks + m.blockBytes)
  }

  function Minus(c: Counters, m: Message): Counters {
    Counters(c.count - 1, c.data - |m.bytes|, c.blocks - m.blockBytes)
  }

  /** What the counters of a queue should be. */
  function Tally(q: seq<Message>): (c: Counters)
    ensures c.count == |q|
  {
    if q == [] then Counters(0, 0, 0) else Plus(Tally(q[..|q| - 1]), q[|q| - 1])
  }

  function Concat(q: seq<Message>): seq<byte> {
    if q == [] then [] else Concat(q[..|q| - 1]) + q[|q| - 1].bytes
  }

  /**
   `lock` is the thread in the mutex or -1. `flight` is the end of the part handed to the
   transport, or -1. `current` is the message taken from the queue and not yet sent
   completely, of which `pos` bytes are on the wire.
   */
  datatype State = State(
    limited: bool, status: Status, pcs: seq<Pc>, lock: int, token: bool, quotaToken: int,
    pending: seq<Message>, pendingCounters: Counters, swapped: seq<Message>, swappedCounters: Counters,
    current: Option<Message>, pos: nat, flight: int,
    enqueued: seq<Message>, sent: seq<Message>, wire: seq<byte>)

  datatype Step =
    | Send(t: nat, m: Message)      // a thread calls async_send_message
    | Trigger(t: nat)               // a thread calls trigger_send
    | Connect(t: nat)               // set_socket_connected up to trigger_send
    | Complete(t: nat, n: nat)      // the transport has written n bytes of the part in flight
    | Fail                          // a write ends in an error
    | Close
    | Go(t: nat, choice: int)       // a thread goes on; `choice` is what a foreign call returns

  function Start(limited: bool, threads: nat): State {
    State(limited, Initial, seq(threads, _ => Idle), -1, false, 1, [], Tally([]), [], Tally([]), None, 0, -1, [], [], [])
  }

  predicate Enabled(s: State, step: Step) {
    match step
    case Send(t, m) => t < |s.pcs| && s.pcs[t] == Idle && m.bytes != []
    case Trigger(t) => t < |s.pcs| && s.pcs[t] == Idle
    case Connect(t) => t < |s.pcs| && s.pcs[t] == Idle && s.status == Initial
    case Complete(t, n) =>
      && t < |s.pcs| && s.pcs[t] == Idle && s.current.Some?
      && 0 < n && s.pos + n <= s.flight <= |s.current.value.bytes|
    case Fail => 0 <= s.flight
    case Close => true
    case Go(t, choice) => t < |s.pcs| && CanGo(s, s.pcs[t], choice)
  }

  /** A thread waits for the mutex, and foreign calls keep their promises: without a limit
      the quota is granted, and a message that is not exhausted has a next part. */
  predicate CanGo(s: State, pc: Pc, choice: int) {
    match pc
    case Idle => false
    case Locking(_) => s.lock == -1
    case GetLocking => s.lock == -1
    case Popping => true
    case Acquiring => s.current.Some? && (s.limited || 0 < choice)
    case StartingWrite => s.current.Some? && s.pos < choice <= |s.current.value.bytes|
    case FindingNext => s.current.Some? && (s.pos < |s.current.value.bytes| ==> s.pos < choice <= |s.current.value.bytes|)
    case PuttingBack => s.current.Some?
    case _ => true
  }

  function At(s: State, t: nat, pc: Pc): State
    requires t < |s.pcs|
  {
    s.(pcs := s.pcs[t := pc])
  }

  function Do(s: State, step: Step): State
    requires Enabled(s, step)
  {
    match step
    case Send(t, m) => At(s, t, Entering(m))
    case Trigger(t) => At(s, t, Triggering)
    case Connect(t) => At(s.(status := Connected), t, Triggering)
    case Complete(t, n) =>
      var u := s.(pos := s.pos + n, wire := s.wire + s.current.value.bytes[s.pos..s.pos + n]);
      if s.status != Connected then u.(flight := -1)
      else if u.pos == s.flight then At(u.(flight := -1), t, FindingNext)
      else u
    case Fail => s.(flight := -1, status := Closed)
    case Close => s.(status := Closed)
    case Go(t, choice) => GoOn(s, t, choice)
  }

  function GoOn(s: State, t: nat, choice: int): State
    requires t < |s.pcs| && CanGo(s, s.pcs[t], choice)
  {
    match s.pcs[t]
    case Entering(m) => At(s, t, if s.status == Closed then Idle else Locking(m))
    case Locking(m) => At(s.(lock := t), t, Pushing(m))
    case Pushing(m) => At(s.(pending := s.pending + [m], enqueued := s.enqueued + [m]), t, Counting(m))
    case Counting(m) => At(s.(pendingCounters := Plus(s.pendingCounters, m)), t, Unlocking)
    case Unlocking => At(s.(lock := -1), t, CheckingToken)
    case Triggering => At(s.(quotaToken := 1), t, CheckingToken)
    case CheckingToken => At(s, t, if s.token then Idle else CheckingQuota)
    case CheckingQuota => At(s, t, if s.quotaToken <= 0 then Idle else CheckingStatus)
    case CheckingStatus => At(s, t, if s.status == Connected then Swapping else Idle)
    case Swapping => if s.token then At(s, t, Idle) else At(s.(token := true), t, Getting)
    case Getting => At(s, t, if s.swapped == [] && 0 < s.pendingCounters.count then GetLocking else Popping)
    case GetLocking => At(s.(lock := t), t, GetSwapping)
    case GetSwapping =>
      if s.pending == [] then At(s, t, GetUnlocking)
      else At(s.(swapped := s.pending, pending := s.swapped,
                 swappedCounters := s.pendingCounters, pendingCounters := Counters(0, 0, 0)), t, GetUnlocking)
    case GetUnlocking => At(s.(lock := -1), t, Popping)
    case Popping =>
      if s.swapped == [] then At(s, t, ReleasingEmpty)
      else At(s.(current := Some(s.swapped[0]), pos := 0, swapped := s.swapped[1..],
                 swappedCounters := Minus(s.swappedCounters, s.swapped[0])), t, Acquiring)
    case Acquiring => At(s.(quotaToken := choice), t, if choice <= 0 then PuttingBack else StartingWrite)
    case StartingWrite => At(s.(flight := choice), t, Idle)
    case PuttingBack =>
      At(s.(swapped := [s.current.value] + s.swapped, swappedCounters := Plus(s.swappedCounters, s.current.value),
            current := None), t, ReleasingRefused)
    case ReleasingRefused => At(s.(token := false), t, Idle)
    case ReleasingEmpty => At(s.(token := false), t, Rechecking)
    case Rechecking => At(s, t, if s.pendingCounters.count == 0 then Idle else CheckingStatus)
    case FindingNext =>
      if s.pos < |s.current.value.bytes| then At(s.(flight := choice), t, Idle)
      else At(s.(sent := s.sent + [s.current.value], current := None, pos := 0), t, ReleasingSent)
    case ReleasingSent => At(s.(token := false), t, CheckingToken)
    case Idle => s
  }

  // ---- Runs --------------------------------------------------------------------------------

  predicate Runs(start: State, steps: seq<Step>)
    decreases |steps|, 0
  {
    steps == [] || (Runs(start, steps[..|steps| - 1]) && Enabled(After(start, steps[..|steps| - 1]), steps[|steps| - 1]))
  }

  function After(start: State, steps: seq<Step>): State
    requires Runs(start, steps)
    decreases |steps|, 1
  {
    if steps == [] then start else Do(After(start, steps[..|steps| - 1]), steps[|steps| - 1])
  }

  // ---- Mutex and token -----------------------------------------------------------------------

  predicate InMutex(pc: Pc) {
    pc.Pushing? || pc.Counting? || pc.Unlocking? || pc.GetSwapping? || pc.GetUnlocking?
  }

  predicate HasToken(pc: Pc) {
    || pc.Getting? || pc.GetLocking? || pc.GetSwapping? || pc.GetUnlocking? || pc.Popping? || pc.Acquiring? || pc.StartingWrite?
    || pc.PuttingBack? || pc.ReleasingRefused? || pc.ReleasingEmpty? || pc.FindingNext? || pc.ReleasingSent?
  }

  /** With a message at hand. */
  predicate HasMessage(pc: Pc) {
    pc.Acquiring? || pc.StartingWrite? || pc.PuttingBack? || pc.FindingNext?
  }

  ghost predicate MutexHeld(s: State) {
    forall t :: 0 <= t < |s.pcs| ==> (InMutex(s.pcs[t]) <==> s.lock == t)
  }

  /** The token has one holder: a thread or the write in flight. */
  ghost predicate TokenHeld(s: State) {
    && (forall t :: 0 <= t < |s.pcs| && HasToken(s.pcs[t]) ==> s.token && s.flight < 0)
    && (forall t, u :: 0 <= t < |s.pcs| && 0 <= u < |s.pcs| && HasToken(s.pcs[t]) && HasToken(s.pcs[u]) ==> t == u)
    && (0 <= s.flight ==> s.token)
    && (s.status == Connected && s.token && s.flight < 0 ==> exists t :: 0 <= t < |s.pcs| && HasToken(s.pcs[t]))
    && (s.status == Initial ==> !s.token && forall t :: 0 <= t < |s.pcs| ==> s.pcs[t] != Swapping)
  }

  // A step changes what one thread is about to do. The invariants over all threads follow
  // from what that change does to the shared state.

  predicate ByThread(step: Step) {
    !step.Fail? && !step.Close?
  }

  lemma {:induction false} OneThread(s: State, step: Step)
    requires Enabled(s, step)
    ensures var u := Do(s, step);
            if ByThread(step) then step.t < |s.pcs| == |u.pcs| && u.pcs == s.pcs[step.t := u.pcs[step.t]] else u.pcs == s.pcs
    ensures Do(s, step).limited == s.limited
  {
    if step.Complete? { assert s.pcs == s.pcs[step.t := s.pcs[step.t]]; }
    if step.Go? { GoOneThread(s, step.t, step.choice); }
  }

  lemma {:induction false} GoOneThread(s: State, t: nat, choice: int)
    requires t < |s.pcs| && CanGo(s, s.pcs[t], choice)
    ensures var u := GoOn(s, t, choice); |u.pcs| == |s.pcs| && u.pcs == s.pcs[t := u.pcs[t]] && u.limited == s.limited
  {
  }

  predicate MutexMove(lock: int, pc: Pc, lock': int, pc': Pc, t: int) {
    || (lock' == lock && InMutex(pc') == InMutex(pc))
    || (lock == -1 && lock' == t && InMutex(pc'))
    || (lock == t && lock' == -1 && !InMutex(pc'))
  }

  /** The only steps into the mutex are those that wait for it. */
  lemma {:induction false} StaysOutside(s: State, t: nat, choice: int)
    requires t < |s.pcs| && CanGo(s, s.pcs[t], choice) && !InMutex(s.pcs[t]) && !s.pcs[t].Locking? && !s.pcs[t].GetLocking?
    ensures var u := GoOn(s, t, choice); |u.pcs| == |s.pcs| && !InMutex(u.pcs[t]) && u.lock == s.lock
  {
  }

  lemma {:induction false} OutsideMutex(s: State, t: nat, choice: int)
    requires t < |s.pcs| && CanGo(s, s.pcs[t], choice) && !InMutex(s.pcs[t]) && s.lock != t
    ensures var u := GoOn(s, t, choice);
            && |u.pcs| == |s.pcs| && !u.pcs[t].Counting?
            && if InMutex(u.pcs[t]) then s.lock == -1 && u.lock == t else u.lock == s.lock
  {
    if !s.pcs[t].Locking? && !s.pcs[t].GetLocking? { StaysOutside(s, t, choice); }
  }

  lemma {:induction false} InsideMutex(s: State, t: nat, choice: int)
    requires t < |s.pcs| && CanGo(s, s.pcs[t], choice) && InMutex(s.pcs[t]) && s.lock == t
    ensures var u := GoOn(s, t, choice);
            |u.pcs| == |s.pcs| && if InMutex(u.pcs[t]) then u.lock == s.lock else u.lock == -1
  {
  }

  lemma {:induction false} GoMutex(s: State, t: nat, choice: int)
    requires t < |s.pcs| && CanGo(s, s.pcs[t], choice) && (InMutex(s.pcs[t]) <==> s.lock == t)
    ensures var u := GoOn(s, t, choice); |u.pcs| == |s.pcs| && MutexMove(s.lock, s.pcs[t], u.lock, u.pcs[t], t)
  {
    if InMutex(s.pcs[t]) { InsideMutex(s, t, choice); } else { OutsideMutex(s, t, choice); }
  }

  lemma {:induction false} MutexStep(s: State, step: Step)
    requires MutexHeld(s) && Enabled(s, step)
    ensures MutexHeld(Do(s, step))
  {
    OneThread(s, step);
    if step.Go? { GoMutex(s, step.t, step.choice); }
  }

  /** What may happen to the token: nothing, it is taken, given back, handed to a write,
      taken over from a write, or lost with a write on a stream that is not connected. */
  predicate TokenMove(s: State, pc: Pc, u: State, pc': Pc) {
    || (u.token == s.token && u.flight == s.flight && HasToken(pc') == HasToken(pc))
    || (!s.token && u.token && u.flight == s.flight && !HasToken(pc) && HasToken(pc') && s.status != Initial)
    || (HasToken(pc) && !HasToken(pc') && !u.token && u.flight == s.flight)
    || (HasToken(pc) && !HasToken(pc') && u.token == s.token && 0 <= u.flight)
    || (!HasToken(pc) && HasToken(pc') && u.token == s.token && 0 <= s.flight && u.flight == -1)
    || (!HasToken(pc) && !HasToken(pc') && u.token == s.token && 0 <= s.flight && u.flight == -1 && u.status == Closed)
  }

  lemma {:induction false} GoToken(s: State, t: nat, choice: int)
    requires t < |s.pcs| && CanGo(s, s.pcs[t], choice) && (s.pcs[t] == Swapping ==> s.status != Initial)
    ensures var u := GoOn(s, t, choice);
            && |u.pcs| == |s.pcs| && TokenMove(s, s.pcs[t], u, u.pcs[t]) && u.status == s.status
            && (u.pcs[t] == Swapping ==> s.status == Connected)
  {
    if HasToken(s.pcs[t]) { HolderToken(s, t, choice); }
  }

  lemma {:induction false} HolderToken(s: State, t: nat, choice: int)
    requires t < |s.pcs| && CanGo(s, s.pcs[t], choice) && HasToken(s.pcs[t])
    ensures var u := GoOn(s, t, choice);
            && |u.pcs| == |s.pcs| && TokenMove(s, s.pcs[t], u, u.pcs[t]) && u.status == s.status && u.pcs[t] != Swapping
  {
  }

  lemma {:induction false} TokenMoved(s: State, u: State, t: nat)
    requires TokenHeld(s) && t < |s.pcs| && |u.pcs| == |s.pcs| && u.pcs == s.pcs[t := u.pcs[t]] && TokenMove(s, s.pcs[t], u, u.pcs[t])
    requires u.status == s.status || (s.status == Initial && u.status == Connected)
    requires u.pcs[t] == Swapping ==> s.status != Initial
    ensures TokenHeld(u)
  {
    if u.status == Connected && u.token && u.flight < 0 && !HasToken(u.pcs[t]) {
      var h :| 0 <= h < |s.pcs| && HasToken(s.pcs[h]);
      assert h != t && u.pcs[h] == s.pcs[h];
    }
  }

  lemma {:induction false} TokenStep(s: State, step: Step)
    requires TokenHeld(s) && Enabled(s, step)
    ensures TokenHeld(Do(s, step))
  {
    OneThread(s, step);
    if ByThread(step) {
      if step.Go? { GoToken(s, step.t, step.choice); }
      TokenMoved(s, Do(s, step), step.t);
    }
  }

  // ---- The message at hand --------------------------------------------------------------------

  /** What a holder of the token knows at its place in the code. */
  predicate Knows(s: State, pc: Pc) {
    && (HasMessage(pc) ==> s.current.Some?)
    && (HasToken(pc) && !HasMessage(pc) ==> s.current.None?)
    && (pc.GetLocking? || pc.GetSwapping? || pc.ReleasingEmpty? ==> s.swapped == [])
    && (pc.Acquiring? || pc.StartingWrite? || pc.PuttingBack? ==> s.pos == 0)
    && (pc.PuttingBack? || pc.ReleasingRefused? ==> s.limited)
  }

  predicate Current(s: State) {
    && (!s.token ==> s.current.None?)
    && (0 <= s.flight ==> s.current.Some? && s.pos < s.flight)
    && (match s.current case None => s.pos == 0 case Some(m) => s.pos <= |m.bytes|)
    && (0 <= s.flight && s.current.Some? ==> s.flight <= |s.current.value.bytes|)
    && (s.limited || 0 < s.quotaToken)
  }

  ghost predicate AtHand(s: State) {
    Current(s) && forall t :: 0 <= t < |s.pcs| ==> Knows(s, s.pcs[t])
  }

  lemma {:induction false} FreeAtHand(s: State, t: nat, choice: int)
    requires t < |s.pcs| && CanGo(s, s.pcs[t], choice) && Current(s) && !HasToken(s.pcs[t])
    ensures var u := GoOn(s, t, choice);
            && |u.pcs| == |s.pcs| && Knows(u, u.pcs[t]) && Current(u)
            && u.current == s.current && u.swapped == s.swapped && u.pos == s.pos && u.limited == s.limited
  {
  }

  lemma {:induction false} HolderAtHand(s: State, t: nat, choice: int)
    requires t < |s.pcs| && CanGo(s, s.pcs[t], choice) && Knows(s, s.pcs[t]) && Current(s)
    requires HasToken(s.pcs[t]) && s.token && s.flight < 0
    ensures var u := GoOn(s, t, choice); |u.pcs| == |s.pcs| && Knows(u, u.pcs[t]) && Current(u)
  {
  }

  lemma {:induction false} GoAtHand(s: State, t: nat, choice: int)
    requires t < |s.pcs| && CanGo(s, s.pcs[t], choice) && Knows(s, s.pcs[t]) && Current(s)
    requires HasToken(s.pcs[t]) ==> s.token && s.flight < 0
    ensures var u := GoOn(s, t, choice);
            && |u.pcs| == |s.pcs| && Knows(u, u.pcs[t]) && Current(u)
            && (!HasToken(s.pcs[t]) ==> u.current == s.current && u.swapped == s.swapped && u.pos == s.pos && u.limited == s.limited)
  {
    if HasToken(s.pcs[t]) { HolderAtHand(s, t, choice); } else { FreeAtHand(s, t, choice); }
  }

  lemma {:induction false} AtHandStep(s: State, step: Step)
    requires AtHand(s) && TokenHeld(s) && Enabled(s, step)
    ensures AtHand(Do(s, step))
  {
    OneThread(s, step);
    var u := Do(s, step);
    if step.Go? { GoAtHand(s, step.t, step.choice); }
    assert Current(u);
    forall t | 0 <= t < |u.pcs| ensures Knows(u, u.pcs[t]) {
      if ByThread(step) && t != step.t { assert Knows(s, s.pcs[t]); }
    }
  }

  // ---- Counters --------------------------------------------------------------------------------

  predicate PendingCounted(s: State) {
    if 0 <= s.lock < |s.pcs| && s.pcs[s.lock].Counting? then
      && s.pending != [] && s.pending[|s.pending| - 1] == s.pcs[s.lock].m
      && s.pendingCounters == Tally(s.pending[..|s.pending| - 1])
    else s.pendingCounters == Tally(s.pending)
  }

  predicate Counted(s: State) {
    PendingCounted(s) && s.swappedCounters == Tally(s.swapped)
  }

  lemma {:induction false} TallyFront(m: Message, q: seq<Message>)
    ensures Tally([m] + q) == Plus(Tally(q), m)
  {
    var r := [m] + q;
    if q == [] {
      assert r[..|r| - 1] == [];
    } else {
      assert r[..|r| - 1] == [m] + q[..|q| - 1];
      TallyFront(m, q[..|q| - 1]);
    }
  }

  lemma {:induction false} TallyBack(q: seq<Message>, m: Message)
    ensures Tally(q + [m]) == Plus(Tally(q), m)
  {
    assert (q + [m])[..|q|] == q;
  }

  /** Outside the mutex a step leaves the pending queue and its counters alone. */
  lemma {:induction false} PendingAlone(s: State, t: nat, choice: int)
    requires t < |s.pcs| && CanGo(s, s.pcs[t], choice) && !InMutex(s.pcs[t])
    ensures var u := GoOn(s, t, choice); u.pending == s.pending && u.pendingCounters == s.pendingCounters
  {
  }

  lemma {:induction false} CountedInMutex(s: State, t: nat, choice: int)
    requires t < |s.pcs| && CanGo(s, s.pcs[t], choice) && Counted(s)
    requires Knows(s, s.pcs[t]) && InMutex(s.pcs[t]) && s.lock == t
    ensures PendingCounted(GoOn(s, t, choice))
  {
    match s.pcs[t]
    case Pushing(m) => assert (s.pending + [m])[..|s.pending|] == s.pending;
    case Counting(m) => assert s.pending == s.pending[..|s.pending| - 1] + [m]; TallyBack(s.pending[..|s.pending| - 1], m);
    case _ =>
  }

  /** While thread `t`, outside the mutex or just entering it, does anything else. */
  lemma {:induction false} StillCounted(s: State, u: State, t: nat)
    requires PendingCounted(s) && t < |s.pcs| == |u.pcs| && u.pcs == s.pcs[t := u.pcs[t]] && !u.pcs[t].Counting? && s.lock != t
    requires u.pending == s.pending && u.pendingCounters == s.pendingCounters && (u.lock == s.lock || (s.lock == -1 && u.lock == t))
    ensures PendingCounted(u)
  {
  }

  lemma {:induction false} GoPendingCounted(s: State, t: nat, choice: int)
    requires t < |s.pcs| && CanGo(s, s.pcs[t], choice) && Counted(s)
    requires Knows(s, s.pcs[t]) && (InMutex(s.pcs[t]) <==> s.lock == t)
    ensures PendingCounted(GoOn(s, t, choice))
  {
    if InMutex(s.pcs[t]) {
      CountedInMutex(s, t, choice);
    } else {
      GoOneThread(s, t, choice);
      OutsideMutex(s, t, choice);
      PendingAlone(s, t, choice);
      StillCounted(s, GoOn(s, t, choice), t);
    }
  }

  lemma {:induction false} GoSwappedCounted(s: State, t: nat, choice: int)
    requires t < |s.pcs| && CanGo(s, s.pcs[t], choice) && Counted(s)
    requires Knows(s, s.pcs[t]) && (InMutex(s.pcs[t]) <==> s.lock == t)
    ensures var u := GoOn(s, t, choice); u.swappedCounters == Tally(u.swapped)
  {
    match s.pcs[t]
    case Popping => if s.swapped != [] {
      assert s.swapped == [s.swapped[0]] + s.swapped[1..];
      TallyFront(s.swapped[0], s.swapped[1..]);
    }
    case PuttingBack => TallyFront(s.current.value, s.swapped);
    case _ =>
  }

  lemma {:induction false} CountedStep(s: State, step: Step)
    requires Counted(s) && MutexHeld(s) && AtHand(s) && Enabled(s, step)
    ensures Counted(Do(s, step))
  {
    if step.Go? {
      GoPendingCounted(s, step.t, step.choice);
      GoSwappedCounted(s, step.t, step.choice);
    } else {
      OneThread(s, step);
      QueuesAlone(s, step);
      if ByThread(step) { StillCounted(s, Do(s, step), step.t); }
    }
  }

  lemma {:induction false} QueuesAlone(s: State, step: Step)
    requires Enabled(s, step) && !step.Go?
    ensures var u := Do(s, step);
            && u.pending == s.pending && u.pendingCounters == s.pendingCounters && u.lock == s.lock
            && u.swapped == s.swapped && u.swappedCounters == s.swappedCounters
            && (ByThread(step) ==> step.t < |u.pcs| && s.pcs[step.t] == Idle && !u.pcs[step.t].Counting?)
  {
  }

  // ---- Order and bytes ---------------------------------------------------------------------------

  function Taken(s: State): seq<Message> {
    match s.current case None => [] case Some(m) => [m]
  }

  /** Sent, at hand and queued, in this order, is what was enqueued. */
  predicate InOrder(s: State) {
    s.sent + Taken(s) + s.swapped + s.pending == s.enqueued
  }

  /** On the wire are the messages sent and the beginning of the one at hand. */
  predicate OnWire(s: State) {
    match s.current
    case None => s.wire == Concat(s.sent)
    case Some(m) => s.pos <= |m.bytes| && s.wire == Concat(s.sent) + m.bytes[..s.pos]
  }

  lemma {:induction false} FirstTaken(sent: seq<Message>, q: seq<Message>, rest: seq<Message>)
    requires q != []
    ensures sent + [] + q + rest == sent + [q[0]] + q[1..] + rest
  {
    assert q == [q[0]] + q[1..];
  }

  lemma {:induction false} PutInFront(sent: seq<Message>, m: Message, q: seq<Message>, rest: seq<Message>)
    ensures sent + [m] + q + rest == sent + [] + ([m] + q) + rest
  {
  }

  lemma {:induction false} GoInOrder(s: State, t: nat, choice: int)
    requires t < |s.pcs| && CanGo(s, s.pcs[t], choice) && InOrder(s) && Knows(s, s.pcs[t])
    ensures InOrder(GoOn(s, t, choice))
  {
    match s.pcs[t]
    case Popping => if s.swapped != [] { FirstTaken(s.sent, s.swapped, s.pending); }
    case PuttingBack => PutInFront(s.sent, s.current.value, s.swapped, s.pending);
    case GetSwapping => assert s.sent + [] + [] + s.pending == s.sent + [] + s.pending + [];
    case Pushing(m) => assert s.sent + Taken(s) + s.swapped + (s.pending + [m]) == s.enqueued + [m];
    case FindingNext =>
      var m := s.current.value;
      assert s.sent + [m] + s.swapped + s.pending == s.sent + [m] + [] + s.swapped + s.pending;
    case _ =>
  }

  lemma {:induction false} InOrderStep(s: State, step: Step)
    requires InOrder(s) && AtHand(s) && Enabled(s, step)
    ensures InOrder(Do(s, step))
  {
    if step.Go? { GoInOrder(s, step.t, step.choice); }
  }

  lemma {:induction false} GoOnWire(s: State, t: nat, choice: int)
    requires t < |s.pcs| && CanGo(s, s.pcs[t], choice) && OnWire(s) && Knows(s, s.pcs[t])
    ensures OnWire(GoOn(s, t, choice))
  {
    match s.pcs[t]
    case FindingNext =>
      var m := s.current.value;
      if s.pos == |m.bytes| {
        assert m.bytes[..s.pos] == m.bytes;
        assert (s.sent + [m])[..|s.sent|] == s.sent;
      }
    case _ =>
  }

  lemma {:induction false} OnWireStep(s: State, step: Step)
    requires OnWire(s) && AtHand(s) && Enabled(s, step)
    ensures OnWire(Do(s, step))
  {
    if step.Go? { GoOnWire(s, step.t, step.choice); }
    if step.Complete? { CompleteOnWire(s, step); }
  }

  lemma {:induction false} CompleteOnWire(s: State, step: Step)
    requires OnWire(s) && step.Complete? && Enabled(s, step)
    ensures OnWire(Do(s, step))
  {
    WireMore(s, Do(s, step), s.current.value, step.n);
  }

  lemma {:induction false} WireMore(s: State, u: State, m: Message, n: nat)
    requires OnWire(s) && s.current == u.current == Some(m) && u.sent == s.sent && s.pos + n <= |m.bytes|
    requires u.pos == s.pos + n && u.wire == s.wire + m.bytes[s.pos..s.pos + n]
    ensures OnWire(u)
  {
    assert m.bytes[..s.pos] + m.bytes[s.pos..s.pos + n] == m.bytes[..s.pos + n];
  }

  // ---- No lost wakeup -------------------------------------------------------------------------------

  /** On its way to the compare-and-swap. */
  predicate Trying(pc: Pc) {
    pc.Triggering? || pc.CheckingToken? || pc.CheckingQuota? || pc.CheckingStatus? || pc.Swapping?
  }

  /** Going to look at the pending queue after this. */
  predicate WillLook(pc: Pc) {
    Trying(pc) || pc.Counting? || pc.Unlocking? || pc.Rechecking?
  }

  ghost predicate SomeoneTries(s: State) {
    exists t :: 0 <= t < |s.pcs| && Trying(s.pcs[t])
  }

  ghost predicate SomeoneWillLook(s: State) {
    exists t :: 0 <= t < |s.pcs| && WillLook(s.pcs[t])
  }

  /** Without a limit: while the stream is connected and the token free, a message in a queue
      is on someone's mind. */
  ghost predicate Awake(s: State) {
    !s.limited && s.status == Connected && !s.token ==>
      (s.swapped != [] ==> SomeoneTries(s)) && (s.pending != [] ==> SomeoneWillLook(s))
  }

  /** What a thread without the token does while the token is free: it takes it, goes on
      trying, comes to look later, was not going to look anyway, or has found nothing. */
  lemma {:induction false} GoAwake(s: State, t: nat, choice: int)
    requires t < |s.pcs| && CanGo(s, s.pcs[t], choice) && !s.token && s.status == Connected && 0 < s.quotaToken
    requires !HasToken(s.pcs[t])
    ensures var u := GoOn(s, t, choice);
            && |u.pcs| == |s.pcs| && u.swapped == s.swapped
            && (|| u.token || Trying(u.pcs[t])
                || (!Trying(s.pcs[t]) && WillLook(u.pcs[t]))
                || (!WillLook(s.pcs[t]) && u.pending == s.pending)
                || (s.pcs[t].Rechecking? && s.pendingCounters.count == 0 && u.pending == s.pending))
  {
  }

  lemma {:induction false} GoReleases(s: State, t: nat, choice: int)
    requires t < |s.pcs| && CanGo(s, s.pcs[t], choice) && s.token && !s.limited && Knows(s, s.pcs[t])
    ensures var u := GoOn(s, t, choice);
            |u.pcs| == |s.pcs| && (u.token || Trying(u.pcs[t]) || (u.pcs[t].Rechecking? && u.swapped == []))
  {
  }

  /** Someone else still does. */
  lemma {:induction false} OthersStay(s: State, u: State, t: nat)
    requires t < |s.pcs| && |u.pcs| == |s.pcs| && u.pcs == s.pcs[t := u.pcs[t]]
    ensures SomeoneTries(s) && (Trying(s.pcs[t]) ==> Trying(u.pcs[t])) ==> SomeoneTries(u)
    ensures SomeoneWillLook(s) && (WillLook(s.pcs[t]) ==> WillLook(u.pcs[t])) ==> SomeoneWillLook(u)
    ensures Trying(u.pcs[t]) ==> SomeoneTries(u) && SomeoneWillLook(u)
    ensures WillLook(u.pcs[t]) ==> SomeoneWillLook(u)
  {
    if SomeoneTries(s) {
      var h :| 0 <= h < |s.pcs| && Trying(s.pcs[h]);
      assert h != t ==> u.pcs[h] == s.pcs[h];
    }
    if SomeoneWillLook(s) {
      var h :| 0 <= h < |s.pcs| && WillLook(s.pcs[h]);
      assert h != t ==> u.pcs[h] == s.pcs[h];
    }
  }

  /** A thread that finds the counter at zero although the queue is not empty has been
      overtaken by one that is about to count its message. */
  lemma {:induction false} CountingThread(s: State, u: State, t: nat)
    requires Counted(s) && s.pendingCounters.count == 0 && s.pending != []
    requires t < |s.pcs| && s.pcs[t].Rechecking? && |u.pcs| == |s.pcs| && u.pcs == s.pcs[t := u.pcs[t]]
    ensures SomeoneWillLook(u)
  {
    assert 0 <= s.lock < |s.pcs| && s.pcs[s.lock].Counting?;
    assert u.pcs[s.lock] == s.pcs[s.lock];
  }

  lemma {:induction false} AwakeStep(s: State, step: Step)
    requires Awake(s) && TokenHeld(s) && AtHand(s) && Counted(s) && Enabled(s, step)
    ensures Awake(Do(s, step))
  {
    var u := Do(s, step);
    if ByThread(step) && !u.limited && u.status == Connected && !u.token {
      var t := step.t;
      OneThread(s, step);
      OthersStay(s, u, t);
      if step.Go? {
        if s.token {
          GoReleases(s, t, step.choice);
        } else {
          GoAwake(s, t, step.choice);
          if s.pcs[t].Rechecking? && s.pendingCounters.count == 0 && s.pending != [] { CountingThread(s, u, t); }
        }
      }
    }
  }

  // ---- Every run -----------------------------------------------------------------------------------

  ghost predicate Invariant(s: State) {
    MutexHeld(s) && TokenHeld(s) && AtHand(s) && Counted(s) && InOrder(s) && OnWire(s) && Awake(s)
  }

  lemma {:induction false} InvariantStep(s: State, step: Step)
    requires Invariant(s) && Enabled(s, step)
    ensures Invariant(Do(s, step))
  {
    MutexStep(s, step);
    TokenStep(s, step);
    AtHandStep(s, step);
    CountedStep(s, step);
    InOrderStep(s, step);
    OnWireStep(s, step);
    AwakeStep(s, step);
  }

  lemma {:induction false} InvariantAlways(limited: bool, threads: nat, steps: seq<Step>)
    requires Runs(Start(limited, threads), steps)
    ensures Invariant(After(Start(limited, threads), steps))
  {
    if steps != [] {
      InvariantAlways(limited, threads, steps[..|steps| - 1]);
      InvariantStep(After(Start(limited, threads), steps[..|steps| - 1]), steps[|steps| - 1]);
    }
  }

  /** At most one holder of the token, be it a thread or a write in flight. */
  lemma {:induction false} OneHolder(limited: bool, threads: nat, steps: seq<Step>, t: nat, u: nat)
    requires Runs(Start(limited, threads), steps)
    ensures var s := After(Start(limited, threads), steps);
            t < |s.pcs| && u < |s.pcs| && HasToken(s.pcs[t]) && HasToken(s.pcs[u]) ==> t == u && s.token && s.flight < 0
  {
    InvariantAlways(limited, threads, steps);
  }

  /** No message is forgotten: unless a limit holds it back, as long as the stream is
      connected, the token free and a message queued, some thread has not yet left. */
  lemma {:induction false} NoLostWakeup(threads: nat, steps: seq<Step>)
    requires Runs(Start(false, threads), steps)
    ensures var s := After(Start(false, threads), steps);
            s.status == Connected && !s.token && s.swapped + s.pending != [] ==>
              exists t :: 0 <= t < |s.pcs| && s.pcs[t] != Idle
  {
    InvariantAlways(false, threads, steps);
    LimitedAlways(false, threads, steps);
    var s := After(Start(false, threads), steps);
    if s.status == Connected && !s.token && s.swapped + s.pending != [] {
      assert SomeoneTries(s) || SomeoneWillLook(s);
    }
  }

  /** When every thread has left and no write is under way, everything has been sent. */
  lemma {:induction false} QuietMeansSent(threads: nat, steps: seq<Step>)
    requires Runs(Start(false, threads), steps)
    ensures var s := After(Start(false, threads), steps);
            s.status == Connected && s.flight < 0 && (forall t :: 0 <= t < |s.pcs| ==> s.pcs[t] == Idle) ==>
              s.sent == s.enqueued && s.wire == Concat(s.enqueued)
  {
    InvariantAlways(false, threads, steps);
    NoLostWakeup(threads, steps);
  }

  lemma {:induction false} LimitedAlways(limited: bool, threads: nat, steps: seq<Step>)
    requires Runs(Start(limited, threads), steps)
    ensures After(Start(limited, threads), steps).limited == limited
  {
    if steps != [] {
      LimitedAlways(limited, threads, steps[..|steps| - 1]);
      OneThread(After(Start(limited, threads), steps[..|steps| - 1]), steps[|steps| - 1]);
    }
  }

  /** Dequeued messages are a prefix of the enqueued ones, refused or not, and the wire
      carries their bytes in that order. */
  lemma {:induction false} SentInOrder(limited: bool, threads: nat, steps: seq<Step>)
    requires Runs(Start(limited, threads), steps)
    ensures var s := After(Start(limited, threads), steps);
            && s.sent + Taken(s) <= s.enqueued && s.sent + Taken(s) + s.swapped + s.pending == s.enqueued
            && s.wire <= Concat(s.enqueued)
  {
    InvariantAlways(limited, threads, steps);
    WirePrefix(After(Start(limited, threads), steps));
  }

  lemma {:induction false} WirePrefix(s: State)
    requires InOrder(s) && OnWire(s)
    ensures s.sent + Taken(s) <= s.enqueued && s.wire <= Concat(s.enqueued)
  {
    var rest := s.swapped + s.pending;
    assert s.enqueued == s.sent + Taken(s) + rest;
    ConcatAppend(s.sent + Taken(s), rest);
    match s.current
    case None => assert s.sent + Taken(s) == s.sent;
    case Some(m) => assert (s.sent + [m])[..|s.sent|] == s.sent;
  }

  lemma {:induction false} ConcatAppend(a: seq<Message>, b: seq<Message>)
    ensures Concat(a + b) == Concat(a) + Concat(b)
  {
    if b == [] {
      assert a + b == a;
    } else {
      assert (a + b)[..|a + b| - 1] == a + b[..|b| - 1];
      ConcatAppend(a, b[..|b| - 1]);
    }
  }

  /** With no thread in the mutex, the counters of both queues add up to what is queued. */
  lemma {:induction false} CountersAddUp(limited: bool, threads: nat, steps: seq<Step>)
    requires Runs(Start(limited, threads), steps)
    ensures var s := After(Start(limited, threads), steps);
            var p, q, all := s.pendingCounters, s.swappedCounters, Tally(s.swapped + s.pending);
            s.lock == -1 ==> q == Tally(s.swapped) && p == Tally(s.pending)
                             && Counters(q.count + p.count, q.data + p.data, q.blocks + p.blocks) == all
  {
    InvariantAlways(limited, threads, steps);
    var s := After(Start(limited, threads), steps);
    TallyAppend(s.swapped, s.pending);
  }

  lemma {:induction false} TallyAppend(a: seq<Message>, b: seq<Message>)
    ensures var p, q := Tally(a), Tally(b); Tally(a + b) == Counters(p.count + q.count, p.data + q.data, p.blocks + q.blocks)
  {
    if b == [] {
      assert a + b == a;
    } else {
      assert (a + b)[..|a + b| - 1] == a + b[..|b| - 1];
      TallyAppend(a, b[..|b| - 1]);
    }
  }
}
