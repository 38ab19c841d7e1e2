/**
 The senders under a limit: no write begins without quota; a refused sender is woken by
 trigger_send, unless that comes while the refused thread still holds the token.
 */
module SendThrottled {
  import opened Bytes
  import opened Options
  import opened SendProtocol
  import opened SendProgress
  import opened SendLiveness

  /** A thread that has been refused and has not yet given the token back. */
  predicate Refused(pc: Pc) {
    pc.PuttingBack? || pc.ReleasingRefused?
  }

  // ---- No write without quota ----------------------------------------------------------------

  /** Whoever is about to write has been granted quota, whoever has been refused has not. */
  ghost predicate Granted(s: State) {
    forall t :: 0 <= t < |s.pcs| && s.pcs[t].StartingWrite? ==> 0 < s.quotaToken
  }

  lemma {:induction false} GoQuota(s: State, t: nat, choice: int)
    requires t < |s.pcs| && CanGo(s, s.pcs[t], choice)
    ensures var u := GoOn(s, t, choice);
            && |u.pcs| == |s.pcs|
            && u.quotaToken == (if s.pcs[t].Triggering? then 1 else if s.pcs[t].Acquiring? then choice else s.quotaToken)
            && (u.pcs[t].StartingWrite? ==> s.pcs[t].Acquiring? && 0 < choice)
            && (Refused(u.pcs[t]) ==> (s.pcs[t].Acquiring? && choice <= 0) || (s.pcs[t].PuttingBack? && u.quotaToken == s.quotaToken))
  {
    if !HasToken(s.pcs[t]) { FreeQuota(s, t, choice); }
  }

  lemma {:induction false} FreeQuota(s: State, t: nat, choice: int)
    requires t < |s.pcs| && CanGo(s, s.pcs[t], choice) && !HasToken(s.pcs[t])
    ensures var u := GoOn(s, t, choice);
            && |u.pcs| == |s.pcs| && u.quotaToken == (if s.pcs[t].Triggering? then 1 else s.quotaToken)
            && !u.pcs[t].StartingWrite? && !Refused(u.pcs[t])
  {
  }

  /** Two threads with the token are one. */
  lemma OnlyHolder(s: State, h: nat, t: nat)
    requires TokenHeld(s) && h < |s.pcs| && t < |s.pcs|
    ensures HasToken(s.pcs[h]) && s.pcs[t].Acquiring? ==> h == t
  {
    assert s.pcs[t].Acquiring? ==> HasToken(s.pcs[t]);
  }

  lemma {:induction false} GrantedStep(s: State, step: Step)
    requires Granted(s) && TokenHeld(s) && Enabled(s, step)
    ensures Granted(Do(s, step))
  {
    hide GoOn;
    OneThread(s, step);
    var u := Do(s, step);
    if step.Go? {
      GoQuota(s, step.t, step.choice);
      forall h | 0 <= h < |u.pcs| && u.pcs[h].StartingWrite? ensures 0 < u.quotaToken {
        OnlyHolder(s, h, step.t);
        assert h != step.t ==> u.pcs[h] == s.pcs[h];
      }
    }
  }

  /** In every run, limited or not, a write begins only after quota has been granted. */
  lemma {:induction false} NoWriteWithoutQuota(limited: bool, threads: nat, steps: seq<Step>)
    requires Runs(Start(limited, threads), steps)
    ensures Granted(After(Start(limited, threads), steps))
  {
    if steps != [] {
      hide Do, Enabled;
      var n := |steps| - 1;
      NoWriteWithoutQuota(limited, threads, steps[..n]);
      InvariantAlways(limited, threads, steps[..n]);
      GrantedStep(After(Start(limited, threads), steps[..n]), steps[n]);
    }
  }

  // ---- Waiting for quota ------------------------------------------------------------------------

  /** Not yet past the look at the quota token. */
  predicate BeforeQuota(pc: Pc) {
    || pc.Idle? || pc.Entering? || pc.Locking? || pc.Pushing? || pc.Counting? || pc.Unlocking?
    || pc.CheckingToken? || pc.CheckingQuota?
  }

  /** The session has been refused, and no thread is past the look at the quota token. */
  ghost predicate Waiting(s: State) {
    s.quotaToken <= 0 && s.flight < 0 && forall t :: 0 <= t < |s.pcs| ==> BeforeQuota(s.pcs[t])
  }

  predicate Wakes(step: Step) {
    step.Trigger? || step.Connect?
  }

  lemma {:induction false} GoWaiting(s: State, t: nat, choice: int)
    requires t < |s.pcs| && CanGo(s, s.pcs[t], choice) && BeforeQuota(s.pcs[t]) && s.quotaToken <= 0
    ensures var u := GoOn(s, t, choice);
            && |u.pcs| == |s.pcs| && BeforeQuota(u.pcs[t]) && u.flight == s.flight
            && u.quotaToken == s.quotaToken && u.swapped == s.swapped && u.sent == s.sent && u.wire == s.wire
  {
  }

  lemma {:induction false} WaitingStep(s: State, step: Step)
    requires Waiting(s) && Enabled(s, step) && !Wakes(step)
    ensures var u := Do(s, step);
            Waiting(u) && u.quotaToken == s.quotaToken && u.swapped == s.swapped && u.sent == s.sent && u.wire == s.wire
  {
    hide GoOn;
    OneThread(s, step);
    if step.Go? { GoWaiting(s, step.t, step.choice); }
    var u := Do(s, step);
    forall t | 0 <= t < |u.pcs| ensures BeforeQuota(u.pcs[t]) {
      assert BeforeQuota(s.pcs[t]);
      assert !ByThread(step) || t != step.t ==> u.pcs[t] == s.pcs[t];
    }
  }

  /** However many messages are passed in, a session that waits for quota asks for none until
      it is triggered: the token by which the server sorts stays as it was, and nothing is
      written. */
  lemma {:induction false} WaitsForTrigger(s: State, steps: seq<Step>)
    requires Waiting(s) && Runs(s, steps) && forall i :: 0 <= i < |steps| ==> !Wakes(steps[i])
    ensures var u := After(s, steps);
            Waiting(u) && u.quotaToken == s.quotaToken && u.swapped == s.swapped && u.sent == s.sent && u.wire == s.wire
  {
    hide Do, Enabled, Waiting;
    if steps != [] {
      var n := |steps| - 1;
      WaitsForTrigger(s, steps[..n]);
      WaitingStep(After(s, steps[..n]), steps[n]);
    }
  }

  // ---- Waking up under a limit -----------------------------------------------------------------

  /** While the stream is connected, the token free and quota there, a message in a queue is on
      someone's mind. */
  ghost predicate Wakeful(s: State) {
    s.status == Connected && !s.token && 0 < s.quotaToken ==>
      (s.swapped != [] ==> SomeoneTries(s)) && (s.pending != [] ==> SomeoneWillLook(s))
  }

  /** As long as a refused thread holds the token, there is no quota. */
  ghost predicate RefusalKnown(s: State) {
    forall t :: 0 <= t < |s.pcs| && Refused(s.pcs[t]) ==> s.quotaToken <= 0
  }

  /** trigger_send does not come while a refused thread holds the token. */
  ghost predicate Timely(s: State, step: Step) {
    step.Go? && step.t < |s.pcs| && s.pcs[step.t].Triggering? ==> forall h :: 0 <= h < |s.pcs| ==> !Refused(s.pcs[h])
  }

  lemma {:induction false} RefusalStep(s: State, step: Step)
    requires RefusalKnown(s) && TokenHeld(s) && Enabled(s, step) && Timely(s, step)
    ensures RefusalKnown(Do(s, step))
  {
    hide GoOn;
    OneThread(s, step);
    var u := Do(s, step);
    if step.Go? {
      GoQuota(s, step.t, step.choice);
      forall h | 0 <= h < |u.pcs| && Refused(u.pcs[h]) ensures u.quotaToken <= 0 {
        OnlyHolder(s, h, step.t);
        assert h != step.t ==> u.pcs[h] == s.pcs[h];
        assert s.pcs[h].PuttingBack? ==> Refused(s.pcs[h]);
      }
    }
  }

  /** What gives the token back: a refusal, a thread that has found nothing, or one that goes
      on to look. */
  lemma {:induction false} GoGivesBack(s: State, t: nat, choice: int)
    requires t < |s.pcs| && CanGo(s, s.pcs[t], choice) && s.token && Knows(s, s.pcs[t])
    ensures var u := GoOn(s, t, choice);
            && |u.pcs| == |s.pcs|
            && (u.token || Trying(u.pcs[t]) || (u.pcs[t].Rechecking? && u.swapped == []) || (s.pcs[t].ReleasingRefused? && u.quotaToken == s.quotaToken))
  {
  }

  lemma {:induction false} WakefulStep(s: State, step: Step)
    requires Wakeful(s) && RefusalKnown(s) && TokenHeld(s) && AtHand(s) && Counted(s) && Enabled(s, step)
    ensures Wakeful(Do(s, step))
  {
    hide GoOn, Counted;
    var u := Do(s, step);
    if ByThread(step) && u.status == Connected && !u.token && 0 < u.quotaToken {
      var t := step.t;
      OneThread(s, step);
      OthersStay(s, u, t);
      if step.Go? {
        GoQuota(s, t, step.choice);
        GoStatus(s, t, step.choice);
        if s.token {
          GoGivesBack(s, t, step.choice);
        } else if s.pcs[t].Triggering? {
          TriggerTries(s, t, step.choice);
        } else {
          GoWakeful(s, u, t, step.choice);
        }
      }
    }
  }

  lemma {:induction false} TriggerTries(s: State, t: nat, choice: int)
    requires t < |s.pcs| && s.pcs[t].Triggering? && CanGo(s, s.pcs[t], choice)
    ensures Trying(GoOn(s, t, choice).pcs[t])
  {
  }

  lemma {:induction false} GoWakeful(s: State, u: State, t: nat, choice: int)
    requires t < |s.pcs| && CanGo(s, s.pcs[t], choice) && u == GoOn(s, t, choice) && !s.pcs[t].Triggering?
    requires Wakeful(s) && TokenHeld(s) && AtHand(s) && Counted(s) && !s.token && s.status == Connected && !u.token && 0 < u.quotaToken
    requires |u.pcs| == |s.pcs| && u.pcs == s.pcs[t := u.pcs[t]]
    ensures (u.swapped != [] ==> SomeoneTries(u)) && (u.pending != [] ==> SomeoneWillLook(u))
  {
    hide GoOn, Counted;
    assert !HasToken(s.pcs[t]);
    GoQuota(s, t, choice);
    GoAwake(s, t, choice);
    OthersStay(s, u, t);
    if s.pcs[t].Rechecking? && s.pendingCounters.count == 0 && s.pending != [] { CountingThread(s, u, t); }
  }

  /** Every trigger of the run is timely. */
  ghost predicate AllTimely(start: State, steps: seq<Step>)
    requires Runs(start, steps)
  {
    steps == [] || (AllTimely(start, steps[..|steps| - 1]) && Timely(After(start, steps[..|steps| - 1]), steps[|steps| - 1]))
  }

  /** Under a limit as without one no message is forgotten, if no trigger comes while a refused
      thread holds the token: once all have left, a message can be left in a queue only
      without quota, waiting for the next trigger. */
  lemma {:induction false} WokenInTime(limited: bool, threads: nat, steps: seq<Step>)
    requires Runs(Start(limited, threads), steps) && AllTimely(Start(limited, threads), steps)
    ensures var s := After(Start(limited, threads), steps);
            && Wakeful(s) && RefusalKnown(s)
            && (s.status == Connected && !s.token && s.swapped + s.pending != [] && AtRest(s) ==> s.quotaToken <= 0)
  {
    hide Do, Enabled, Timely;
    if steps != [] {
      var n := |steps| - 1;
      WokenInTime(limited, threads, steps[..n]);
      InvariantAlways(limited, threads, steps[..n]);
      RefusalStep(After(Start(limited, threads), steps[..n]), steps[n]);
      WakefulStep(After(Start(limited, threads), steps[..n]), steps[n]);
    }
    var s := After(Start(limited, threads), steps);
    assert AtRest(s) ==> !SomeoneTries(s) && !SomeoneWillLook(s);
  }

  // ---- A lost wakeup ----------------------------------------------------------------------------

  lemma Extend(start: State, steps: seq<Step>, step: Step) returns (more: seq<Step>)
    requires Runs(start, steps) && Enabled(After(start, steps), step)
    ensures more == steps + [step] && Runs(start, more) && After(start, more) == Do(After(start, steps), step)
  {
    more := steps + [step];
    assert more[..|more| - 1] == steps;
  }

  ghost predicate Leads(steps: seq<Step>, s: State) {
    Runs(Start(true, 2), steps) && After(Start(true, 2), steps) == s
  }

  /** Thread `t` goes on four times. */
  lemma FourTimes(steps: seq<Step>, s: State, t: nat) returns (more: seq<Step>, u: State)
    requires Leads(steps, s) && CanFour(s, t) && Unbroken(steps)
    ensures Leads(more, u) && u == Four(s, t) && Unbroken(more)
  {
    hide GoOn, CanGo, Runs, After, Start;
    more := Extend(Start(true, 2), steps, Go(t, 0));
    more := Extend(Start(true, 2), more, Go(t, 0));
    more := Extend(Start(true, 2), more, Go(t, 0));
    more := Extend(Start(true, 2), more, Go(t, 0));
    u := Four(s, t);
  }

  predicate CanFour(s: State, t: nat) {
    && Enabled(s, Go(t, 0)) && Enabled(Do(s, Go(t, 0)), Go(t, 0)) && Enabled(Do(Do(s, Go(t, 0)), Go(t, 0)), Go(t, 0))
    && Enabled(Do(Do(Do(s, Go(t, 0)), Go(t, 0)), Go(t, 0)), Go(t, 0))
  }

  function Four(s: State, t: nat): State
    requires CanFour(s, t)
  {
    Do(Do(Do(Do(s, Go(t, 0)), Go(t, 0)), Go(t, 0)), Go(t, 0))
  }

  /** Connected by thread 1, which has then only to trigger; thread 0 sends. */
  function Sending(m: Message): State {
    Start(true, 2).(status := Connected, pcs := [Entering(m), Triggering])
  }

  /** The message is in the queue. */
  function InQueue(m: Message): State {
    Sending(m).(pcs := [Unlocking, Triggering], lock := 0, pending := [m], pendingCounters := Plus(Tally([]), m), enqueued := [m])
  }

  /** Thread 0 is about to take the token. */
  function AtToken(m: Message): State {
    InQueue(m).(pcs := [Swapping, Triggering], lock := -1)
  }

  /** It has the token and the mutex. */
  function Getter(m: Message): State {
    AtToken(m).(pcs := [GetUnlocking, Triggering], lock := 0, token := true, pending := [], pendingCounters := Counters(0, 0, 0),
                swapped := [m], swappedCounters := Plus(Tally([]), m))
  }

  /** It has been refused and has put the message back. */
  function PutBack(m: Message): State {
    Getter(m).(pcs := [ReleasingRefused, Triggering], lock := -1, quotaToken := 0, swappedCounters := Plus(Minus(Plus(Tally([]), m), m), m))
  }

  lemma ConnectAndSend(m: Message)
    requires m.bytes != []
    ensures var s := Start(true, 2);
            && Enabled(s, Connect(1)) && Enabled(Do(s, Connect(1)), Send(0, m))
            && Do(Do(s, Connect(1)), Send(0, m)) == Sending(m)
  {
    hide GoOn, CanGo, Tally;
    assert Start(true, 2).pcs == [Idle, Idle] && [Idle, Idle][1 := Triggering] == [Idle, Triggering];
    assert [Idle, Triggering][0 := Entering(m)] == [Entering(m), Triggering];
  }

  lemma ToSending(m: Message) returns (steps: seq<Step>)
    requires m.bytes != []
    ensures Leads(steps, Sending(m)) && Unbroken(steps)
  {
    hide Do, Enabled, Start, Sending;
    ConnectAndSend(m);
    steps := Extend(Start(true, 2), [], Connect(1));
    steps := Extend(Start(true, 2), steps, Send(0, m));
  }

  lemma FourSteps(m: Message)
    ensures CanFour(Sending(m), 0) && Four(Sending(m), 0) == InQueue(m)
    ensures CanFour(InQueue(m), 0) && Four(InQueue(m), 0) == AtToken(m)
    ensures CanFour(AtToken(m), 0) && Four(AtToken(m), 0) == Getter(m)
    ensures CanFour(Getter(m), 0) && Four(Getter(m), 0) == PutBack(m)
  {
    FirstFour(m);
    SecondFour(m);
    ThirdFour(m);
    FourthFour(m);
  }

  lemma FirstFour(m: Message)
    ensures CanFour(Sending(m), 0) && Four(Sending(m), 0) == InQueue(m)
  {
  }

  lemma SecondFour(m: Message)
    ensures CanFour(InQueue(m), 0) && Four(InQueue(m), 0) == AtToken(m)
  {
  }

  lemma ThirdFour(m: Message)
    ensures CanFour(AtToken(m), 0) && Four(AtToken(m), 0) == Getter(m)
  {
    assert Plus(Tally([]), m).count == 1;
    hide Tally, Plus, Minus;
    var s := AtToken(m);
    assert Do(Do(s, Go(0, 0)), Go(0, 0)) == s.(pcs := [GetLocking, Triggering], token := true);
  }

  lemma FourthFour(m: Message)
    ensures CanFour(Getter(m), 0) && Four(Getter(m), 0) == PutBack(m)
  {
    hide Tally, Plus, Minus;
    var s := Getter(m);
    var popped := Do(Do(s, Go(0, 0)), Go(0, 0));
    assert [m][1..] == [] && [m] + [] == [m];
    assert popped == s.(pcs := [Acquiring, Triggering], lock := -1, current := Some(m), swapped := [], swappedCounters := Minus(s.swappedCounters, m));
  }

  /** All have left, and the message is still there. */
  function Forgotten(m: Message): (s: State)
    ensures s.status == Connected && !s.token && s.quotaToken == 1 && s.swapped == [m] && AtRest(s)
  {
    PutBack(m).(pcs := [Idle, Idle], token := false, quotaToken := 1)
  }

  /** Thread 1 triggers, and then thread 0 gives the token back. */
  lemma Lost(steps: seq<Step>, m: Message) returns (more: seq<Step>)
    requires Leads(steps, PutBack(m)) && Unbroken(steps)
    ensures Leads(more, Forgotten(m)) && Unbroken(more)
  {
    hide Runs, After;
    more := Extend(Start(true, 2), steps, Go(1, 0));
    more := Extend(Start(true, 2), more, Go(1, 0));
    more := Extend(Start(true, 2), more, Go(0, 0));
  }

  /** A trigger that is not timely: it finds the token taken, and leaves; then the refused
      thread gives the token back and leaves too. The message stays in the queue, though
      the stream is connected and its quota token positive, so that the next recharge does
      not pick it. For every message there is such a run. */
  lemma WakeupLost(m: Message) returns (steps: seq<Step>)
    requires m.bytes != []
    ensures Runs(Start(true, 2), steps) && Unbroken(steps)
    ensures var s := After(Start(true, 2), steps);
            s.status == Connected && !s.token && s.quotaToken == 1 && s.swapped == [m] && AtRest(s)
  {
    hide Four, CanFour, Sending, InQueue, AtToken, Getter, PutBack, Forgotten, Unbroken, Runs, After;
    steps := ToSending(m);
    FourSteps(m);
    var s;
    steps, s := FourTimes(steps, Sending(m), 0);
    steps, s := FourTimes(steps, InQueue(m), 0);
    steps, s := FourTimes(steps, AtToken(m), 0);
    steps, s := FourTimes(steps, Getter(m), 0);
    steps := Lost(steps, m);
  }
}
