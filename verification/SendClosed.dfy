/**
 The senders once the stream is closed: it stays closed, takes no further messages, and at
 most one more write begins.
 */
module SendClosed {
  import opened Bytes
  import opened Options
  import opened SendProtocol
  import opened SendProgress

  lemma {:induction false} StaysClosed(s: State, step: Step)
    requires Enabled(s, step) && s.status == Closed
    ensures Do(s, step).status == Closed
  {
    if step.Go? { GoStatus(s, step.t, step.choice); }
  }

  // ---- No more messages ------------------------------------------------------------------------

  /** A thread that has not yet looked at the status brings nothing to a closed stream. */
  function Past(pc: Pc): Pc {
    if pc.Entering? then Idle else pc
  }

  function AllPast(pcs: seq<Pc>): (p: seq<Pc>)
    ensures |p| == |pcs|
  {
    seq(|pcs|, t requires 0 <= t < |pcs| => Past(pcs[t]))
  }

  /** What has been enqueued, and what threads past the check are bringing. */
  function Taken(s: State): multiset<Message> {
    multiset(s.enqueued) + AllInside(AllPast(s.pcs))
  }

  lemma {:induction false} PastStep(s: State, step: Step)
    requires Enabled(s, step) && ByThread(step) && s.status == Closed
    ensures var u := Do(s, step);
            && step.t < |s.pcs| == |u.pcs|
            && (Pushed(s, step) + Held(Past(u.pcs[step.t])) == Held(Past(s.pcs[step.t])) || Pushed(s, step) + Held(Past(u.pcs[step.t])) == [])
  {
    hide GoOn;
    OneThread(s, step);
    HandStep(s, step);
    if step.Go? { GoHeld(s, step.t, step.choice); }
  }

  lemma {:induction false} TakenStep(s: State, step: Step)
    requires Enabled(s, step) && s.status == Closed
    ensures Taken(Do(s, step)) <= Taken(s)
  {
    hide AllInside, Do, Held, Pushed, Past;
    var u := Do(s, step);
    OneThread(s, step);
    EnqueuedStep(s, step);
    if ByThread(step) {
      var t := step.t;
      PastStep(s, step);
      assert AllPast(u.pcs) == AllPast(s.pcs)[t := Past(u.pcs[t])];
      InsideChanges(AllPast(s.pcs), t, Past(u.pcs[t]));
      InsideSums(s.enqueued, Pushed(s, step), AllInside(AllPast(s.pcs)), AllInside(AllPast(u.pcs)),
                 Held(Past(s.pcs[t])), Held(Past(u.pcs[t])), []);
    } else {
      Silent(s, step);
    }
  }

  /** From a closed stream on, whatever is called: it stays closed, and nothing is enqueued
      but what threads past the check were bringing. */
  lemma {:induction false} ClosedTakesNothing(s: State, steps: seq<Step>)
    requires Runs(s, steps) && s.status == Closed
    ensures After(s, steps).status == Closed
    ensures Taken(After(s, steps)) <= Taken(s)
  {
    if steps != [] {
      hide Do, Enabled, Taken;
      var n := |steps| - 1;
      ClosedTakesNothing(s, steps[..n]);
      StaysClosed(After(s, steps[..n]), steps[n]);
      TakenStep(After(s, steps[..n]), steps[n]);
    }
  }

  // ---- No more writes ----------------------------------------------------------------------------

  /** A write begins with this step. */
  predicate Begins(s: State, step: Step)
    requires Enabled(s, step)
  {
    s.flight < 0 <= Do(s, step).flight
  }

  function Begun(s: State, steps: seq<Step>): nat
    requires Runs(s, steps)
  {
    if steps == [] then 0
    else
      var n := |steps| - 1;
      Begun(s, steps[..n]) + if Begins(After(s, steps[..n]), steps[n]) then 1 else 0
  }

  ghost predicate SomeoneHolds(s: State) {
    exists t :: 0 <= t < |s.pcs| && HasToken(s.pcs[t])
  }

  /** No write can begin any more, because the token is never given back. */
  ghost predicate TokenLost(s: State) {
    0 <= s.flight || (s.token && !SomeoneHolds(s))
  }

  lemma {:induction false} GoBegins(s: State, t: nat, choice: int)
    requires t < |s.pcs| && CanGo(s, s.pcs[t], choice)
    ensures var u := GoOn(s, t, choice);
            && |u.pcs| == |s.pcs|
            && (s.flight < 0 <= u.flight ==> HasToken(s.pcs[t]) && !HasToken(u.pcs[t]))
            && (u.flight < 0 <= s.flight ==> HasToken(s.pcs[t]))
  {
    if !HasToken(s.pcs[t]) { GoFree(s, t, choice); }
  }

  lemma {:induction false} GoFree(s: State, t: nat, choice: int)
    requires t < |s.pcs| && CanGo(s, s.pcs[t], choice) && !HasToken(s.pcs[t])
    ensures var u := GoOn(s, t, choice);
            && |u.pcs| == |s.pcs| && u.flight == s.flight
            && if s.token then u.token && !HasToken(u.pcs[t]) else u.token == HasToken(u.pcs[t])
  {
  }

  lemma {:induction false} BeginsOnce(s: State, step: Step)
    requires Enabled(s, step) && s.status == Closed && TokenHeld(s)
    ensures Begins(s, step) ==> TokenLost(Do(s, step)) && !TokenLost(s)
    ensures TokenLost(s) ==> TokenLost(Do(s, step))
  {
    hide GoOn;
    var u := Do(s, step);
    OneThread(s, step);
    if ByThread(step) {
      var t := step.t;
      if step.Go? {
        GoBegins(s, t, step.choice);
        if !HasToken(s.pcs[t]) { GoFree(s, t, step.choice); }
      }
      forall h | 0 <= h < |u.pcs| && h != t ensures u.pcs[h] == s.pcs[h] {}
    }
  }

  lemma {:induction false} AtMostOne(s: State, steps: seq<Step>)
    requires Runs(s, steps) && s.status == Closed && TokenHeld(s)
    ensures var u := After(s, steps);
            && u.status == Closed && TokenHeld(u)
            && Begun(s, steps) <= (if TokenLost(s) then 0 else 1)
            && (TokenLost(s) || 0 < Begun(s, steps) ==> TokenLost(u))
  {
    if steps != [] {
      hide Do, Enabled, TokenLost, TokenHeld, Begins;
      var n := |steps| - 1;
      AtMostOne(s, steps[..n]);
      StaysClosed(After(s, steps[..n]), steps[n]);
      TokenStep(After(s, steps[..n]), steps[n]);
      BeginsOnce(After(s, steps[..n]), steps[n]);
    }
  }

  /** Once the stream is closed, at whatever point of whatever run, at most one more write
      begins, by a thread that had found it connected; and none if a write was under way,
      for then the token is never given back. */
  lemma {:induction false} OneLastWrite(limited: bool, threads: nat, before: seq<Step>, steps: seq<Step>)
    requires Runs(Start(limited, threads), before) && After(Start(limited, threads), before).status == Closed
    requires Runs(After(Start(limited, threads), before), steps)
    ensures var s := After(Start(limited, threads), before);
            Begun(s, steps) <= if 0 <= s.flight then 0 else 1
  {
    InvariantAlways(limited, threads, before);
    AtMostOne(After(Start(limited, threads), before), steps);
  }
}
