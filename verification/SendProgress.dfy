/**
 What becomes of the messages passed to async_send_message: nothing is lost on the way into
 the queue, each thread's messages stay in order, and once no more calls are made every run
 comes to an end with everything sent.
 */
module SendProgress {
  import opened Bytes
  import opened Options
  import opened SendProtocol

  // ---- From the calls to the queue -----------------------------------------------------------

  /** The messages passed to async_send_message. */
  function Sends(steps: seq<Step>): seq<Message> {
    if steps == [] then [] else Sends(steps[..|steps| - 1]) + Sent(steps[|steps| - 1])
  }

  /** The stream is not closed, and no write fails. */
  predicate Unbroken(steps: seq<Step>) {
    forall i :: 0 <= i < |steps| ==> ByThread(steps[i])
  }

  /** On its way into the queue. */
  function Held(pc: Pc): seq<Message> {
    match pc
    case Entering(m) => [m]
    case Locking(m) => [m]
    case Pushing(m) => [m]
    case _ => []
  }

  function Inside(pc: Pc): multiset<Message> {
    multiset(Held(pc))
  }

  function AllInside(pcs: seq<Pc>): multiset<Message> {
    if pcs == [] then multiset{} else AllInside(pcs[..|pcs| - 1]) + Inside(pcs[|pcs| - 1])
  }

  lemma Exchanged(a: multiset<Message>, b: multiset<Message>, i: multiset<Message>, j: multiset<Message>, x: multiset<Message>)
    requires a + i == b + j
    ensures (a + x) + i == (b + x) + j
  {
    assert (a + x) + i == (a + i) + x;
    assert (b + x) + j == (b + j) + x;
  }

  lemma {:induction false} InsideChanges(pcs: seq<Pc>, t: nat, pc: Pc)
    requires t < |pcs|
    ensures AllInside(pcs[t := pc]) + Inside(pcs[t]) == AllInside(pcs) + Inside(pc)
  {
    hide Inside;
    var n := |pcs| - 1;
    if t == n {
      assert pcs[t := pc][..n] == pcs[..n];
    } else {
      assert pcs[t := pc][..n] == pcs[..n][t := pc];
      InsideChanges(pcs[..n], t, pc);
      Exchanged(AllInside(pcs[..n][t := pc]), AllInside(pcs[..n]), Inside(pcs[t]), Inside(pc), Inside(pcs[n]));
    }
  }

  lemma {:induction false} InsideIdle(pcs: seq<Pc>)
    requires forall t :: 0 <= t < |pcs| ==> pcs[t] == Idle
    ensures AllInside(pcs) == multiset{}
  {
    if pcs != [] { InsideIdle(pcs[..|pcs| - 1]); }
  }

  lemma {:induction false} EnqueuedStep(s: State, step: Step)
    requires Enabled(s, step)
    ensures Do(s, step).enqueued == s.enqueued + Pushed(s, step)
  {
  }

  /** What a thread is bringing it goes on bringing until it pushes it. */
  lemma {:induction false} GoHeld(s: State, t: nat, choice: int)
    requires t < |s.pcs| && CanGo(s, s.pcs[t], choice)
    ensures var u := GoOn(s, t, choice);
            && |u.pcs| == |s.pcs|
            && (s.status == Closed && s.pcs[t].Entering? ==> Held(u.pcs[t]) == [])
            && (!(s.status == Closed && s.pcs[t].Entering?) ==> Held(u.pcs[t]) == if s.pcs[t].Pushing? then [] else Held(s.pcs[t]))
  {
    if Held(s.pcs[t]) == [] { GoEmptyHanded(s, t, choice); }
  }

  lemma {:induction false} GoEmptyHanded(s: State, t: nat, choice: int)
    requires t < |s.pcs| && CanGo(s, s.pcs[t], choice) && Held(s.pcs[t]) == []
    ensures var u := GoOn(s, t, choice); |u.pcs| == |s.pcs| && Held(u.pcs[t]) == []
  {
    if HasToken(s.pcs[t]) { HolderEmptyHanded(s, t, choice); }
  }

  lemma {:induction false} HolderEmptyHanded(s: State, t: nat, choice: int)
    requires t < |s.pcs| && CanGo(s, s.pcs[t], choice) && HasToken(s.pcs[t])
    ensures var u := GoOn(s, t, choice); |u.pcs| == |s.pcs| && Held(u.pcs[t]) == []
  {
  }

  /** What a thread pushes with a step, and what it is given. */
  function Pushed(s: State, step: Step): seq<Message>
    requires Enabled(s, step)
  {
    if step.Go? && s.pcs[step.t].Pushing? then [s.pcs[step.t].m] else []
  }

  function Sent(step: Step): seq<Message> {
    if step.Send? then [step.m] else []
  }

  /** What a thread had at hand and is given it has pushed or has at hand, unless the stream is closed. */
  lemma {:induction false} HandStep(s: State, step: Step)
    requires Enabled(s, step) && ByThread(step)
    ensures var u := Do(s, step);
            && step.t < |s.pcs| == |u.pcs|
            && (s.status != Closed ==> Pushed(s, step) + Held(u.pcs[step.t]) == Held(s.pcs[step.t]) + Sent(step))
            && (Pushed(s, step) + Held(u.pcs[step.t]) == Held(s.pcs[step.t]) + Sent(step) || Pushed(s, step) + Held(u.pcs[step.t]) == [])
  {
    hide GoOn;
    OneThread(s, step);
    if step.Go? { GoHeld(s, step.t, step.choice); }
  }

  /** A step brings in what is sent, and leaves out what comes to a closed stream. */
  lemma {:induction false} InsideStep(s: State, step: Step)
    requires Enabled(s, step)
    ensures var u := Do(s, step);
            var a, b := multiset(u.enqueued) + AllInside(u.pcs), multiset(s.enqueued) + AllInside(s.pcs) + multiset(Sent(step));
            a <= b && (ByThread(step) && s.status != Closed ==> a == b)
  {
    hide AllInside, Do, Held, Sent, Pushed;
    var u := Do(s, step);
    OneThread(s, step);
    EnqueuedStep(s, step);
    if ByThread(step) {
      HandStep(s, step);
      InsideChanges(s.pcs, step.t, u.pcs[step.t]);
      InsideSums(s.enqueued, Pushed(s, step), AllInside(s.pcs), AllInside(u.pcs), Held(s.pcs[step.t]), Held(u.pcs[step.t]), Sent(step));
    } else {
      Silent(s, step);
    }
  }

  lemma Silent(s: State, step: Step)
    requires Enabled(s, step) && !ByThread(step)
    ensures Pushed(s, step) == [] && Sent(step) == []
  {
  }

  lemma InsideSums(e: seq<Message>, pushed: seq<Message>, a: multiset<Message>, a': multiset<Message>,
                   held: seq<Message>, held': seq<Message>, sent: seq<Message>)
    requires a' + multiset(held) == a + multiset(held')
    requires pushed + held' == held + sent || pushed + held' == []
    ensures multiset(e + pushed) + a' <= multiset(e) + a + multiset(sent)
    ensures pushed + held' == held + sent ==> multiset(e + pushed) + a' == multiset(e) + a + multiset(sent)
  {
    assert multiset(e + pushed) == multiset(e) + multiset(pushed);
    assert multiset(pushed + held') == multiset(pushed) + multiset(held');
    assert multiset(held + sent) == multiset(held) + multiset(sent);
    var l, r := multiset(e) + multiset(pushed) + a', multiset(e) + a + multiset(sent);
    forall m ensures l[m] <= r[m] && (pushed + held' == held + sent ==> l[m] == r[m]) {
      assert (a' + multiset(held))[m] == (a + multiset(held'))[m];
      assert multiset(pushed + held')[m] == multiset(pushed)[m] + multiset(held')[m];
      assert multiset(held + sent)[m] == multiset(held)[m] + multiset(sent)[m];
    }
  }

  lemma {:induction false} GoStatus(s: State, t: nat, choice: int)
    requires t < |s.pcs| && CanGo(s, s.pcs[t], choice)
    ensures GoOn(s, t, choice).status == s.status
  {
  }

  lemma {:induction false} StartIdle(limited: bool, threads: nat)
    ensures AllInside(Start(limited, threads).pcs) == multiset{}
  {
    InsideIdle(Start(limited, threads).pcs);
  }

  /** In every run that is not broken off, whatever was passed to async_send_message has been
      enqueued or is still on its way: nothing is dropped, doubled or made up. */
  lemma {:induction false} AllEnqueued(limited: bool, threads: nat, steps: seq<Step>)
    requires Runs(Start(limited, threads), steps) && Unbroken(steps)
    ensures var s := After(Start(limited, threads), steps);
            s.status != Closed && multiset(Sends(steps)) == multiset(s.enqueued) + AllInside(s.pcs)
  {
    if steps == [] {
      StartIdle(limited, threads);
    } else {
      var n := |steps| - 1;
      assert ByThread(steps[n]);
      AllEnqueued(limited, threads, steps[..n]);
      InsideStep(After(Start(limited, threads), steps[..n]), steps[n]);
      StaysOpen(After(Start(limited, threads), steps[..n]), steps[n]);
    }
  }

  lemma {:induction false} StaysOpen(s: State, step: Step)
    requires Enabled(s, step) && ByThread(step) && s.status != Closed
    ensures Do(s, step).status != Closed
  {
    if step.Go? { GoStatus(s, step.t, step.choice); }
  }

  /** Also where it is broken off, nothing is enqueued that was not passed in, nor twice. */
  lemma {:induction false} NothingMadeUp(limited: bool, threads: nat, steps: seq<Step>)
    requires Runs(Start(limited, threads), steps)
    ensures var s := After(Start(limited, threads), steps);
            multiset(s.enqueued) + AllInside(s.pcs) <= multiset(Sends(steps))
  {
    if steps == [] {
      StartIdle(limited, threads);
    } else {
      var n := |steps| - 1;
      NothingMadeUp(limited, threads, steps[..n]);
      InsideStep(After(Start(limited, threads), steps[..n]), steps[n]);
    }
  }

  // ---- The messages of one thread --------------------------------------------------------------

  /** Who enqueued what. */
  datatype Entry = Entry(t: nat, m: Message)

  function Entries(start: State, steps: seq<Step>): seq<Entry>
    requires Runs(start, steps)
  {
    if steps == [] then []
    else
      var before, last := After(start, steps[..|steps| - 1]), steps[|steps| - 1];
      Entries(start, steps[..|steps| - 1]) + Added(before, last)
  }

  function Messages(es: seq<Entry>): seq<Message> {
    if es == [] then [] else Messages(es[..|es| - 1]) + [es[|es| - 1].m]
  }

  function Of(es: seq<Entry>, t: nat): seq<Message> {
    if es == [] then [] else Of(es[..|es| - 1], t) + if es[|es| - 1].t == t then [es[|es| - 1].m] else []
  }

  function SendsOf(steps: seq<Step>, t: nat): seq<Message> {
    if steps == [] then []
    else
      var last := steps[|steps| - 1];
      SendsOf(steps[..|steps| - 1], t) + if ByThread(last) && last.t == t then Sent(last) else []
  }

  lemma EntryNext(es: seq<Entry>, e: Entry, t: nat)
    ensures Messages(es + [e]) == Messages(es) + [e.m]
    ensures Of(es + [e], t) == Of(es, t) + if e.t == t then [e.m] else []
  {
    assert (es + [e])[..|es|] == es;
  }

  /** What a step adds to the entries. */
  function Added(s: State, step: Step): seq<Entry>
    requires Enabled(s, step)
  {
    if Pushed(s, step) == [] then [] else [Entry(step.t, Pushed(s, step)[0])]
  }

  lemma AddedIs(es: seq<Entry>, s: State, step: Step, t: nat)
    requires Enabled(s, step)
    ensures Messages(es + Added(s, step)) == Messages(es) + Pushed(s, step)
    ensures Of(es + Added(s, step), t) == Of(es, t) + if ByThread(step) && step.t == t then Pushed(s, step) else []
  {
    hide Messages, Of;
    if Pushed(s, step) == [] {
      assert es + [] == es;
    } else {
      EntryNext(es, Entry(step.t, Pushed(s, step)[0]), t);
    }
  }

  /** The queue is made up of the entries, in their order. */
  lemma {:induction false} EntriesAre(limited: bool, threads: nat, steps: seq<Step>)
    requires Runs(Start(limited, threads), steps)
    ensures Messages(Entries(Start(limited, threads), steps)) == After(Start(limited, threads), steps).enqueued
  {
    if steps != [] {
      hide Do, Pushed, Added, Enabled, Of;
      var n := |steps| - 1;
      EntriesAre(limited, threads, steps[..n]);
      var s, es := After(Start(limited, threads), steps[..n]), Entries(Start(limited, threads), steps[..n]);
      EnqueuedStep(s, steps[n]);
      AddedIs(es, s, steps[n], 0);
    }
  }

  /** Each thread's messages are enqueued in the order in which it passed them in. */
  lemma {:induction false} ThreadInOrder(limited: bool, threads: nat, steps: seq<Step>, t: nat)
    requires Runs(Start(limited, threads), steps) && Unbroken(steps) && t < threads
    ensures var s := After(Start(limited, threads), steps);
            && |s.pcs| == threads
            && Of(Entries(Start(limited, threads), steps), t) + Held(s.pcs[t]) == SendsOf(steps, t)
  {
    hide Do, Pushed, Held, Added, Of, Messages, Enabled, Sent, Start, Unbroken, ByThread;
    if steps == [] {
      NobodyYet(limited, threads, t);
    } else {
      ShorterUnbroken(steps);
      var n := |steps| - 1;
      var s, step := After(Start(limited, threads), steps[..n]), steps[n];
      ThreadInOrder(limited, threads, steps[..n], t);
      AllEnqueued(limited, threads, steps[..n]);
      HandKept(s, step, t);
      AddedIs(Entries(Start(limited, threads), steps[..n]), s, step, t);
      var es := Of(Entries(Start(limited, threads), steps[..n]), t);
      if step.t == t {
        Regrouped(es, Pushed(s, step), Held(Do(s, step).pcs[t]), Held(s.pcs[t]), Sent(step));
      }
    }
  }

  lemma NobodyYet(limited: bool, threads: nat, t: nat)
    requires t < threads
    ensures var s := Start(limited, threads); |s.pcs| == threads && Of([], t) + Held(s.pcs[t]) == []
  {
  }

  lemma ShorterUnbroken(steps: seq<Step>)
    requires steps != [] && Unbroken(steps)
    ensures Unbroken(steps[..|steps| - 1]) && ByThread(steps[|steps| - 1])
  {
  }

  lemma HandKept(s: State, step: Step, t: nat)
    requires Enabled(s, step) && ByThread(step) && t < |s.pcs| && s.status != Closed
    ensures var u := Do(s, step);
            && |u.pcs| == |s.pcs|
            && if step.t == t then Pushed(s, step) + Held(u.pcs[t]) == Held(s.pcs[t]) + Sent(step) else u.pcs[t] == s.pcs[t]
  {
    hide Do, Pushed, Held, Sent;
    OneThread(s, step);
    HandStep(s, step);
  }

  lemma Regrouped(es: seq<Message>, a: seq<Message>, b: seq<Message>, c: seq<Message>, d: seq<Message>)
    requires a + b == c + d
    ensures es + a + b == es + c + d
  {
    assert es + a + b == es + (a + b);
    assert es + c + d == es + (c + d);
  }

  predicate OnlySender(steps: seq<Step>, t: nat) {
    forall i :: 0 <= i < |steps| && steps[i].Send? ==> steps[i].t == t
  }

  ghost predicate OthersBring(s: State, t: nat) {
    forall u :: 0 <= u < |s.pcs| && u != t ==> Held(s.pcs[u]) == []
  }

  /** If only one thread sends, the queue is in the order of its calls. */
  lemma {:induction false} OneSenderInOrder(limited: bool, threads: nat, steps: seq<Step>, t: nat)
    requires Runs(Start(limited, threads), steps) && Unbroken(steps) && OnlySender(steps, t) && t < threads
    ensures var s := After(Start(limited, threads), steps);
            |s.pcs| == threads && s.enqueued + Held(s.pcs[t]) == Sends(steps) && OthersBring(s, t)
  {
    hide Do, Pushed, Held, Enabled, Sent, Start, Unbroken, ByThread, OnlySender, OthersBring;
    if steps == [] {
      NobodyBrings(limited, threads, t);
    } else {
      ShorterUnbroken(steps);
      ShorterOnly(steps, t);
      var n := |steps| - 1;
      OneSenderInOrder(limited, threads, steps[..n], t);
      AllEnqueued(limited, threads, steps[..n]);
      OneSenderStep(After(Start(limited, threads), steps[..n]), steps[n], t, Sends(steps[..n]));
    }
  }

  lemma NobodyBrings(limited: bool, threads: nat, t: nat)
    requires t < threads
    ensures var s := Start(limited, threads); |s.pcs| == threads && s.enqueued + Held(s.pcs[t]) == [] && OthersBring(s, t)
  {
  }

  lemma ShorterOnly(steps: seq<Step>, t: nat)
    requires steps != [] && OnlySender(steps, t)
    ensures OnlySender(steps[..|steps| - 1], t) && (steps[|steps| - 1].Send? ==> steps[|steps| - 1].t == t)
  {
  }

  lemma {:induction false} OneSenderStep(s: State, step: Step, t: nat, sends: seq<Message>)
    requires Enabled(s, step) && ByThread(step) && t < |s.pcs| && s.status != Closed && OthersBring(s, t)
    requires s.enqueued + Held(s.pcs[t]) == sends && (step.Send? ==> step.t == t)
    ensures var u := Do(s, step);
            |u.pcs| == |s.pcs| && u.enqueued + Held(u.pcs[t]) == sends + Sent(step) && OthersBring(u, t)
  {
    hide Do, Held, Pushed;
    var u := Do(s, step);
    OneThread(s, step);
    EnqueuedStep(s, step);
    HandKept(s, step, step.t);
    HandKept(s, step, t);
    if step.t == t {
      Regrouped(s.enqueued, Pushed(s, step), Held(u.pcs[t]), Held(s.pcs[t]), Sent(step));
    } else {
      assert Held(s.pcs[step.t]) == [];
      assert Pushed(s, step) == [] && Held(u.pcs[step.t]) == [];
    }
    forall v | 0 <= v < |u.pcs| && v != t ensures Held(u.pcs[v]) == [] {
      if v != step.t { assert u.pcs[v] == s.pcs[v]; } else if v != t { assert Held(s.pcs[v]) == []; }
    }
  }
}
