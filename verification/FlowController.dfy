/**
 The quota of a FlowController under any interleaving of its compare-and-swap loops.
 A call loads the quota, computes a new value from what it saw, and swaps it in if the
 quota is still the same; otherwise it loads again. Read and write quota are alike.
 */
module FlowController {
  import opened Options

  datatype Request = Acquire(size: nat) | Recharge(quota: nat)

  /** Where a call stands: about to load, or about to swap with what it saw. */
  datatype Call = Loading(request: Request) | Swapping(request: Request, seen: int)

  /** What has taken effect so far: how much was granted and recharged, how much a recharge
      that found something left threw away, and how many recharges there were. */
  datatype Tally = Tally(granted: nat, charged: nat, discarded: nat, recharges: nat)

  /** A refusal: the token returned (never positive), who was refused, and when. */
  datatype Refusal = Refusal(token: int, caller: nat, at: Tally)

  /** `refusals` lists all of them in the order in which they took effect. */
  datatype State = State(quota: int, calls: map<nat, Call>, tally: Tally, refusals: seq<Refusal>)

  datatype Step = Begin(caller: nat, request: Request) | Load(caller: nat) | Swap(caller: nat)

  predicate Enabled(s: State, step: Step) {
    match step
    case Begin(c, _) => c !in s.calls
    case Load(c) => c in s.calls && s.calls[c].Loading?
    case Swap(c) => c in s.calls && s.calls[c].Swapping?
  }

  /** The value computed from the quota seen. */
  function NewQuota(request: Request, seen: int): int {
    match request
    case Acquire(size) => if seen > 0 then seen - size else seen - 1
    case Recharge(q) => if seen > 0 then q else seen + q
  }

  function Do(s: State, step: Step): State
    requires Enabled(s, step)
  {
    match step
    case Begin(c, r) => s.(calls := s.calls[c := Loading(r)])
    case Load(c) => s.(calls := s.calls[c := Swapping(s.calls[c].request, s.quota)])
    case Swap(c) =>
      var call := s.calls[c];
      if s.quota != call.seen then
        s.(calls := s.calls[c := Loading(call.request)])
      else
        TakeEffect(s.(calls := s.calls - {c}, quota := NewQuota(call.request, call.seen)), c, call)
  }

  function TakeEffect(s: State, caller: nat, call: Call): State
    requires call.Swapping?
  {
    var t := s.tally;
    match call.request
    case Acquire(size) =>
      if call.seen > 0 then s.(tally := t.(granted := t.granted + size))
      else s.(refusals := s.refusals + [Refusal(call.seen, caller, t)])
    case Recharge(q) =>
      s.(tally := t.(charged := t.charged + q, recharges := t.recharges + 1,
                     discarded := t.discarded + if call.seen > 0 then call.seen else 0))
  }

  predicate Runs(start: int, steps: seq<Step>)
    decreases |steps|, 0
  {
    steps == [] || (Runs(start, steps[..|steps| - 1]) && Enabled(After(start, steps[..|steps| - 1]), steps[|steps| - 1]))
  }

  function After(start: int, steps: seq<Step>): State
    requires Runs(start, steps)
    decreases |steps|, 1
  {
    if steps == [] then State(start, map[], Tally(0, 0, 0, 0), [])
    else Do(After(start, steps[..|steps| - 1]), steps[|steps| - 1])
  }

  // ---- One call, with others running between its steps ---------------------------------

  class Quota {
    var value: int

    /** atomic_comp_swap: the value found, and an exchange if it was the expected one. */
    method CompSwap(exchange: int, comperand: int) returns (found: int)
      modifies this
      ensures found == old(value)
      ensures value == if found == comperand then exchange else found
    {
      found := value;
      if found == comperand { value := exchange; }
    }

    /** acquire_*_quota and recharge_*_quota. `others` are the values that other calls
        store just before each swap of this one. The call takes effect exactly once, on a
        value that really was the quota at that moment, which is what it returns. */
    method Run(request: Request, others: seq<int>) returns (seen: int, attempts: nat)
      modifies this
      ensures 1 <= attempts <= |others| + 1
      ensures seen == if attempts <= |others| then others[attempts - 1]
                      else if others == [] then old(value) else others[|others| - 1]
      ensures request.Acquire? ==> value == if seen > 0 then seen - request.size else seen - 1
      ensures request.Recharge? ==> value == if seen > 0 then request.quota else seen + request.quota
    {
      seen := value;
      var newQuota := NewQuota(request, seen);
      attempts := 0;
      while true
        invariant 0 <= attempts <= |others| && newQuota == NewQuota(request, seen) && value == seen
        invariant seen == if attempts == 0 then old(value) else others[attempts - 1]
        decreases |others| - attempts
      {
        if attempts < |others| { value := others[attempts]; }
        attempts := attempts + 1;
        var found := CompSwap(newQuota, seen);
        if found == seen { return; }
        seen := value;
        newQuota := NewQuota(request, seen);
      }
    }
  }

  // ---- How much can be granted -------------------------------------------------------

  /** Nothing gets lost: what was there and what was recharged is still there, granted, or
      thrown away by a recharge, and each refusal costs one. */
  lemma {:induction false} Conserved(start: int, steps: seq<Step>)
    requires Runs(start, steps)
    ensures var s := After(start, steps);
            s.quota + s.tally.granted + s.tally.discarded + |s.refusals| == start + s.tally.charged
  {
    if steps == [] {
    } else {
      Conserved(start, steps[..|steps| - 1]);
    }
  }

  /** Requests ask for at most `m`, recharges add at most `q`. */
  predicate Small(request: Request, m: nat, q: nat) {
    match request case Acquire(size) => size <= m case Recharge(x) => x <= q
  }

  ghost predicate Bounded(steps: seq<Step>, m: nat, q: nat) {
    forall i :: 0 <= i < |steps| && steps[i].Begin? ==> Small(steps[i].request, m, q)
  }

  ghost predicate Inv(start: int, s: State, m: nat, q: nat) {
    && s.tally.granted + s.quota <= start + s.tally.charged
    && s.tally.granted <= start + s.tally.charged + m - 1
    && s.tally.charged <= s.tally.recharges * q
    && (start + s.tally.charged == 0 ==> s.tally.granted == 0 && s.quota <= 0)
    && (forall c :: c in s.calls ==> Small(s.calls[c].request, m, q))
  }

  lemma StepKeeps(start: nat, s: State, step: Step, m: nat, q: nat)
    requires Inv(start, s, m, q) && Enabled(s, step)
    requires step.Begin? ==> Small(step.request, m, q)
    ensures Inv(start, Do(s, step), m, q)
  {
    assert (s.tally.recharges + 1) * q == s.tally.recharges * q + q;
  }

  lemma {:induction false} RunKeeps(start: nat, steps: seq<Step>, m: nat, q: nat)
    requires 1 <= m && Runs(start, steps) && Bounded(steps, m, q)
    ensures Inv(start, After(start, steps), m, q)
  {
    if steps == [] {
    } else {
      var shorter := steps[..|steps| - 1];
      assert Bounded(shorter, m, q);
      RunKeeps(start, shorter, m, q);
      StepKeeps(start, After(start, shorter), steps[|steps| - 1], m, q);
    }
  }

  /** Whatever the interleaving, what has been granted exceeds the initial quota and the
      recharges by less than one request, however deep in debt the quota is; and where
      there is nothing to grant from, nothing is granted. */
  lemma ThroughputBound(start: nat, steps: seq<Step>, m: nat, q: nat)
    requires 1 <= m && Runs(start, steps) && Bounded(steps, m, q)
    ensures var t := After(start, steps).tally;
            && t.granted <= start + t.recharges * q + m - 1
            && (start + t.recharges * q == 0 ==> t.granted == 0)
  {
    RunKeeps(start, steps, m, q);
  }

  lemma Push(start: int, steps: seq<Step>, step: Step) returns (more: seq<Step>)
    requires Runs(start, steps) && Enabled(After(start, steps), step)
    ensures more == steps + [step] && Runs(start, more) && After(start, more) == Do(After(start, steps), step)
  {
    more := steps + [step];
    assert more[..|more| - 1] == steps;
  }

  lemma BoundedPush(steps: seq<Step>, step: Step, m: nat, q: nat)
    requires Bounded(steps, m, q) && (step.Begin? ==> Small(step.request, m, q))
    ensures Bounded(steps + [step], m, q)
  {
  }

  /** One call from beginning to end, with nobody in between. */
  lemma PushCall(start: int, steps: seq<Step>, request: Request, m: nat, q: nat) returns (more: seq<Step>)
    requires Runs(start, steps) && After(start, steps).calls == map[] && Bounded(steps, m, q) && Small(request, m, q)
    ensures Runs(start, more) && Bounded(more, m, q) && After(start, more).calls == map[] && steps <= more
    ensures var s := After(start, steps);
            After(start, more) == TakeEffect(s.(quota := NewQuota(request, s.quota)), 0, Swapping(request, s.quota))
  {
    hide Bounded;
    var s := After(start, steps);
    BoundedPush(steps, Begin(0, request), m, q);
    more := Push(start, steps, Begin(0, request));
    BoundedPush(more, Load(0), m, q);
    more := Push(start, more, Load(0));
    assert After(start, more).calls == map[0 := Swapping(request, s.quota)];
    BoundedPush(more, Swap(0), m, q);
    more := Push(start, more, Swap(0));
    assert map[0 := Swapping(request, s.quota)] - {0} == map[];
    assert more == steps + [Begin(0, request), Load(0), Swap(0)];
  }

  /** Uses up `k` of the quota. */
  lemma {:induction false} PushSpending(start: int, steps: seq<Step>, k: nat, m: nat, q: nat) returns (more: seq<Step>)
    requires 1 <= m && Runs(start, steps) && After(start, steps).calls == map[] && Bounded(steps, m, q)
    requires k <= After(start, steps).quota
    ensures Runs(start, more) && Bounded(more, m, q) && steps <= more
    ensures var s := After(start, steps);
            After(start, more) == s.(quota := s.quota - k, tally := s.tally.(granted := s.tally.granted + k))
    decreases k
  {
    if k == 0 {
      more := steps;
    } else {
      more := PushCall(start, steps, Acquire(1), m, q);
      more := PushSpending(start, more, k - 1, m, q);
    }
  }

  /** `n` times: uses up what there is, then recharges by `x`. */
  lemma {:induction false} PushRecharges(start: nat, steps: seq<Step>, n: nat, m: nat, q: nat, x: nat) returns (more: seq<Step>)
    requires 1 <= m && x <= q && Runs(start, steps) && After(start, steps).calls == map[] && Bounded(steps, m, q)
    requires After(start, steps).quota >= 0
    ensures Runs(start, more) && Bounded(more, m, q) && After(start, more).calls == map[]
    ensures var s, s' := After(start, steps), After(start, more);
            && s'.quota == (if n == 0 then s.quota else x)
            && s'.quota + s'.tally.granted == s.quota + s.tally.granted + n * x
            && s'.tally.recharges == s.tally.recharges + n && s'.tally.charged == s.tally.charged + n * x
            && steps <= more
    decreases n
  {
    if n == 0 {
      more := steps;
    } else {
      more := PushSpending(start, steps, After(start, steps).quota, m, q);
      more := PushCall(start, more, Recharge(x), m, q);
      more := PushRecharges(start, more, n - 1, m, q, x);
      assert n * x == (n - 1) * x + x;
    }
  }

  /** The bound is attained from every initial quota, for every number of recharges and
      every size of request, wherever there is anything to grant from. */
  lemma BoundAttained(start: nat, n: nat, m: nat, q: nat) returns (steps: seq<Step>)
    requires 1 <= m && start + n * q >= 1
    ensures Runs(start, steps) && Bounded(steps, m, q)
    ensures After(start, steps).tally.recharges == n && After(start, steps).tally.granted == start + n * q + m - 1
  {
    if q == 0 {
      steps := PushSpending(start, [], start - 1, m, q);
      steps := PushCall(start, steps, Acquire(m), m, q);
      steps := PushNothing(start, steps, n, m, 0);
    } else {
      steps := PushRecharges(start, [], n, m, q, q);
      steps := PushSpending(start, steps, After(start, steps).quota - 1, m, q);
      steps := PushCall(start, steps, Acquire(m), m, q);
    }
  }

  /** `n` recharges by nothing, of a quota that is used up. */
  lemma {:induction false} PushNothing(start: int, steps: seq<Step>, n: nat, m: nat, q: nat) returns (more: seq<Step>)
    requires Runs(start, steps) && After(start, steps).calls == map[] && Bounded(steps, m, q)
    ensures Runs(start, more) && Bounded(more, m, q) && steps <= more
    ensures After(start, more).tally.recharges == After(start, steps).tally.recharges + n
    ensures After(start, more).tally.granted == After(start, steps).tally.granted
    ensures After(start, more).tally.charged == After(start, steps).tally.charged
    decreases n
  {
    if n == 0 {
      more := steps;
    } else {
      more := PushCall(start, steps, Recharge(0), m, q);
      more := PushNothing(start, more, n - 1, m, q);
    }
  }

  // ---- What a recharge replaces --------------------------------------------------------

  /** The request that takes effect with a step. */
  function Effect(s: State, step: Step): Option<Request>
    requires Enabled(s, step)
  {
    if step.Swap? && s.calls[step.caller].seen == s.quota then Some(s.calls[step.caller].request) else None
  }

  /** What a step grants, and what it recharges. */
  function Granting(s: State, step: Step): nat
    requires Enabled(s, step)
  {
    match Effect(s, step)
    case Some(Acquire(size)) => if s.quota > 0 then size else 0
    case _ => 0
  }

  function Recharging(s: State, step: Step): nat
    requires Enabled(s, step)
  {
    match Effect(s, step)
    case Some(Recharge(q)) => q
    case _ => 0
  }

  /** What a run has granted, read off its steps: the sizes of the acquisitions that took
      effect on a positive quota. */
  function GrantedIn(start: int, steps: seq<Step>): nat
    requires Runs(start, steps)
  {
    if steps == [] then 0
    else
      var before := steps[..|steps| - 1];
      GrantedIn(start, before) + Granting(After(start, before), steps[|steps| - 1])
  }

  /** The sizes of all recharges that took effect. */
  function RechargedIn(start: int, steps: seq<Step>): nat
    requires Runs(start, steps)
  {
    if steps == [] then 0
    else
      var before := steps[..|steps| - 1];
      RechargedIn(start, before) + Recharging(After(start, before), steps[|steps| - 1])
  }

  lemma {:induction false} TallyIs(start: int, steps: seq<Step>)
    requires Runs(start, steps)
    ensures After(start, steps).tally.granted == GrantedIn(start, steps)
    ensures After(start, steps).tally.charged == RechargedIn(start, steps)
  {
    if steps != [] { TallyIs(start, steps[..|steps| - 1]); }
  }

  lemma {:induction false} RunsPrefix(start: int, steps: seq<Step>, i: nat)
    requires Runs(start, steps) && i <= |steps|
    ensures Runs(start, steps[..i])
  {
    if i < |steps| {
      RunsPrefix(start, steps[..|steps| - 1], i);
      assert steps[..|steps| - 1][..i] == steps[..i];
    } else {
      assert steps[..i] == steps;
    }
  }

  /** With its last step a recharge of `q` takes effect while `left` is left. */
  ghost predicate Refills(start: int, steps: seq<Step>, left: int, q: nat) {
    && steps != [] && Runs(start, steps)
    && After(start, steps[..|steps| - 1]).quota == left > 0
    && Effect(After(start, steps[..|steps| - 1]), steps[|steps| - 1]) == Some(Recharge(q))
  }

  ghost predicate SinceRefill(s: State, granted: int, charged: int, q: nat, m: nat) {
    && granted + s.quota <= q + charged
    && granted <= q + charged + m - 1
    && (q + charged == 0 ==> granted == 0)
    && CallsAtMost(s, m) && 0 <= charged
  }

  ghost predicate CallsAtMost(s: State, m: nat) {
    forall c :: c in s.calls && s.calls[c].request.Acquire? ==> s.calls[c].request.size <= m
  }

  ghost predicate SmallRequests(steps: seq<Step>, m: nat) {
    forall i :: 0 <= i < |steps| && steps[i].Begin? && steps[i].request.Acquire? ==> steps[i].request.size <= m
  }

  lemma {:induction false} CallsSmall(start: int, steps: seq<Step>, m: nat)
    requires Runs(start, steps) && SmallRequests(steps, m)
    ensures CallsAtMost(After(start, steps), m)
  {
    if steps != [] {
      var before := steps[..|steps| - 1];
      assert SmallRequests(before, m);
      CallsSmall(start, before, m);
      CallsStaySmall(After(start, before), steps[|steps| - 1], m);
    }
  }

  lemma CallsStaySmall(s: State, step: Step, m: nat)
    requires CallsAtMost(s, m) && Enabled(s, step) && (step.Begin? && step.request.Acquire? ==> step.request.size <= m)
    ensures CallsAtMost(Do(s, step), m)
  {
    var u := Do(s, step);
    forall c | c in u.calls && u.calls[c].request.Acquire? ensures u.calls[c].request.size <= m {
      assert c in s.calls ==> s.calls[c].request == u.calls[c].request || step.Begin?;
    }
  }

  /** A recharge that finds something left replaces it: however much that was, what is
      granted from then on exceeds this recharge and the later ones by less than one request. */
  lemma {:induction false} GrantedSinceRefill(start: int, steps: seq<Step>, i: nat, left: int, q: nat, m: nat)
    requires 1 <= m && Runs(start, steps) && SmallRequests(steps, m) && i <= |steps| && Refills(start, steps[..i], left, q)
    ensures var granted := GrantedIn(start, steps) - GrantedIn(start, steps[..i]);
            var charged := RechargedIn(start, steps) - RechargedIn(start, steps[..i]);
            && 0 <= granted <= q + charged + m - 1
            && (q + charged == 0 ==> granted == 0)
  {
    SinceRefillKept(start, steps, i, left, q, m);
  }

  lemma {:induction false} SinceRefillKept(start: int, steps: seq<Step>, i: nat, left: int, q: nat, m: nat)
    requires 1 <= m && Runs(start, steps) && SmallRequests(steps, m) && i <= |steps| && Refills(start, steps[..i], left, q)
    ensures GrantedIn(start, steps) >= GrantedIn(start, steps[..i]) && RechargedIn(start, steps) >= RechargedIn(start, steps[..i])
    ensures SinceRefill(After(start, steps), GrantedIn(start, steps) - GrantedIn(start, steps[..i]),
                        RechargedIn(start, steps) - RechargedIn(start, steps[..i]), q, m)
  {
    if i == |steps| {
      CallsSmall(start, steps, m);
      assert steps[..i] == steps;
    } else {
      var before := steps[..|steps| - 1];
      assert before[..i] == steps[..i] && SmallRequests(before, m);
      SinceRefillKept(start, before, i, left, q, m);
      SinceRefillStep(After(start, before), steps[|steps| - 1], GrantedIn(start, before) - GrantedIn(start, steps[..i]),
                      RechargedIn(start, before) - RechargedIn(start, steps[..i]), q, m);
    }
  }

  lemma SinceRefillStep(s: State, step: Step, granted: int, charged: int, q: nat, m: nat)
    requires 1 <= m && SinceRefill(s, granted, charged, q, m) && Enabled(s, step)
    requires step.Begin? && step.request.Acquire? ==> step.request.size <= m
    ensures SinceRefill(Do(s, step), granted + Granting(s, step), charged + Recharging(s, step), q, m)
  {
    CallsStaySmall(s, step, m);
  }

  /** That is attained whatever was left, for any later recharges, wherever there is anything
      to grant from: `left` is the quota found, `n` recharges by `x` follow. */
  lemma RefillAttained(left: nat, q: nat, n: nat, x: nat, m: nat) returns (steps: seq<Step>, i: nat)
    requires 1 <= left && 1 <= m && 1 <= q + n * x
    ensures Runs(left, steps) && SmallRequests(steps, m) && i <= |steps| && Refills(left, steps[..i], left, q)
    ensures RechargedIn(left, steps) - RechargedIn(left, steps[..i]) == n * x
    ensures GrantedIn(left, steps) - GrantedIn(left, steps[..i]) == q + n * x + m - 1
  {
    var refill := PushRefill(left, q, m);
    i := |refill|;
    var most := if q < x then x else q;
    assert Bounded(refill, m, most);
    if x == 0 {
      assert n * x == 0;
      steps := PushSpending(left, refill, q - 1, m, most);
      steps := PushCall(left, steps, Acquire(m), m, most);
      steps := PushNothing(left, steps, n, m, most);
    } else {
      steps := PushRecharges(left, refill, n, m, most, x);
      steps := PushSpending(left, steps, After(left, steps).quota - 1, m, most);
      steps := PushCall(left, steps, Acquire(m), m, most);
    }
    assert steps[..i] == refill;
    TallyIs(left, steps);
    TallyIs(left, refill);
  }

  lemma PushRefill(left: nat, q: nat, m: nat) returns (steps: seq<Step>)
    requires 1 <= left
    ensures Refills(left, steps, left, q) && Bounded(steps, m, q)
    ensures After(left, steps) == State(q, map[], Tally(0, q, left, 1), [])
  {
    BoundedPush([], Begin(0, Recharge(q)), m, q);
    steps := Push(left, [], Begin(0, Recharge(q)));
    BoundedPush(steps, Load(0), m, q);
    steps := Push(left, steps, Load(0));
    assert After(left, steps).calls == map[0 := Swapping(Recharge(q), left)];
    var before := steps;
    BoundedPush(steps, Swap(0), m, q);
    steps := Push(left, steps, Swap(0));
    assert steps[..|steps| - 1] == before;
    assert map[0 := Swapping(Recharge(q), left)] - {0} == map[];
  }

  // ---- Order of refusals ---------------------------------------------------------------

  ghost predicate Falling(rs: seq<Refusal>) {
    forall i, j :: 0 <= i < j < |rs| ==> rs[i].token > rs[j].token
  }

  /** What has been added to the quota up to `a`, refusals apart. */
  function Net(a: Tally): int {
    a.charged - a.granted - a.discarded
  }

  ghost predicate Earlier(a: Tally, b: Tally) {
    && a.granted <= b.granted && a.charged <= b.charged && a.discarded <= b.discarded && a.recharges <= b.recharges
    && (a.recharges == b.recharges ==> a.charged == b.charged && a.discarded == b.discarded)
  }

  ghost predicate TokensFrom(start: int, rs: seq<Refusal>) {
    forall k :: 0 <= k < |rs| ==> rs[k].token == start + Net(rs[k].at) - k
  }

  /** Each token is what there was, plus what had been added, less the refusals before it. */
  lemma {:induction false} TokensAre(start: int, steps: seq<Step>)
    requires Runs(start, steps)
    ensures var s := After(start, steps);
            && TokensFrom(start, s.refusals)
            && (forall k :: 0 <= k < |s.refusals| ==> s.refusals[k].token <= 0 && Earlier(s.refusals[k].at, s.tally))
            && (forall i, j :: 0 <= i < j < |s.refusals| ==> Earlier(s.refusals[i].at, s.refusals[j].at))
  {
    if steps == [] {
    } else {
      TokensAre(start, steps[..|steps| - 1]);
      Conserved(start, steps[..|steps| - 1]);
    }
  }

  /** In every run, of any two refusals the later one has the smaller token if and only if
      less was recharged between them than was granted, thrown away and refused. If nothing
      was granted or thrown away in between (the quota stayed in debt), that is: less than
      one per refusal; so between two refusals in a row, a recharge keeps the order if and
      only if it is a recharge of zero. Without a recharge in between the tokens do fall. */
  lemma FallsExactly(start: int, steps: seq<Step>, i: nat, j: nat)
    requires Runs(start, steps) && i < j < |After(start, steps).refusals|
    ensures var a, b := After(start, steps).refusals[i], After(start, steps).refusals[j];
            var charged := b.at.charged - a.at.charged;
            var spent := b.at.granted - a.at.granted + b.at.discarded - a.at.discarded;
            && charged >= 0 && spent >= 0
            && (b.token < a.token <==> charged < spent + (j - i))
            && (spent == 0 && j == i + 1 ==> (b.token < a.token <==> charged == 0))
            && (a.at.recharges == b.at.recharges ==> b.token < a.token)
  {
    TokensAre(start, steps);
  }

  /** No refusal is followed by a net gain: what lies between two refusals in a row adds nothing. */
  ghost predicate NoGain(rs: seq<Refusal>) {
    forall i, j :: 0 <= i < j < |rs| && j == i + 1 ==> Net(rs[j].at) <= Net(rs[i].at)
  }

  lemma {:induction false} NoGainFalls(start: int, rs: seq<Refusal>, i: nat, j: nat)
    requires NoGain(rs) && TokensFrom(start, rs)
    requires i < j < |rs|
    ensures rs[j].token < rs[i].token
  {
    if j > i + 1 {
      NoGainFalls(start, rs, i, j - 1);
    }
    assert Net(rs[j].at) <= Net(rs[j - 1].at);
  }

  /** Over a whole run the tokens fall if and only if no gap between refusals adds anything. */
  lemma RefusalsFall(start: int, steps: seq<Step>)
    requires Runs(start, steps)
    ensures Falling(After(start, steps).refusals) <==> NoGain(After(start, steps).refusals)
  {
    var rs := After(start, steps).refusals;
    TokensAre(start, steps);
    if NoGain(rs) {
      forall i, j | 0 <= i < j < |rs| ensures rs[i].token > rs[j].token {
        NoGainFalls(start, rs, i, j);
      }
    }
  }

  /** FlowControlItem's order: the token closer to zero comes first. */
  ghost predicate SortedByToken(rs: seq<Refusal>) {
    forall i, j :: 0 <= i < j < |rs| ==> !(rs[j].token > rs[i].token)
  }

  lemma SameHead(refused: seq<Refusal>, sorted: seq<Refusal>)
    requires Falling(refused) && SortedByToken(sorted) && multiset(sorted) == multiset(refused)
    requires refused != [] && sorted != []
    ensures sorted[0] == refused[0]
  {
    assert refused[0] in multiset(refused) && refused[0] in sorted;
    var k :| 0 <= k < |sorted| && sorted[k] == refused[0];
    assert sorted[0] in multiset(sorted) && sorted[0] in refused;
    var n :| 0 <= n < |refused| && refused[n] == sorted[0];
  }

  lemma SameTail(a: seq<Refusal>, b: seq<Refusal>)
    requires a != [] && b != [] && a[0] == b[0] && multiset(a) == multiset(b)
    ensures multiset(a[1..]) == multiset(b[1..])
  {
    assert a == [a[0]] + a[1..] && b == [b[0]] + b[1..];
    assert multiset(a[1..]) == multiset(a) - multiset{a[0]};
    assert multiset(b[1..]) == multiset(b) - multiset{b[0]};
  }

  /** However the refused are collected, sorting them by token restores the order in
      which they were refused. */
  lemma {:induction false} SortingRestoresOrder(refused: seq<Refusal>, sorted: seq<Refusal>)
    requires Falling(refused) && SortedByToken(sorted) && multiset(sorted) == multiset(refused)
    ensures sorted == refused
  {
    assert |sorted| == |multiset(sorted)| == |multiset(refused)| == |refused|;
    if refused != [] {
      SameHead(refused, sorted);
      SameTail(refused, sorted);
      SortingRestoresOrder(refused[1..], sorted[1..]);
      assert refused == [refused[0]] + refused[1..] && sorted == [sorted[0]] + sorted[1..];
    }
  }

  /** Sorting by token, in whatever way, gives back this order and no other. */
  ghost predicate Restored(rs: seq<Refusal>) {
    SortedByToken(rs) && forall sorted :: SortedByToken(sorted) && multiset(sorted) == multiset(rs) ==> sorted == rs
  }

  lemma FallingRestored(rs: seq<Refusal>)
    requires Falling(rs)
    ensures Restored(rs)
  {
    forall sorted | SortedByToken(sorted) && multiset(sorted) == multiset(rs) ensures sorted == rs {
      SortingRestoresOrder(rs, sorted);
    }
  }

  /** Two neighbours with one token could as well come out the other way round. */
  lemma SwappedAsGood(rs: seq<Refusal>, k: nat)
    requires SortedByToken(rs) && k + 1 < |rs| && rs[k].token == rs[k + 1].token
    ensures var swapped := rs[k := rs[k + 1]][k + 1 := rs[k]];
            SortedByToken(swapped) && multiset(swapped) == multiset(rs)
  {
  }

  lemma GainNotRestored(start: int, rs: seq<Refusal>, k: nat)
    requires TokensFrom(start, rs)
    requires k + 1 < |rs| && Net(rs[k + 1].at) > Net(rs[k].at)
    ensures !Restored(rs)
  {
    if SortedByToken(rs) {
      var swapped := rs[k := rs[k + 1]][k + 1 := rs[k]];
      assert rs[k].token == rs[k + 1].token && swapped[k] != rs[k];
      SwappedAsGood(rs, k);
    }
  }

  /** In every run, sorting the refused by their tokens restores the order of refusal if
      and only if nothing was added between any two of them. */
  lemma RefusedInOrder(start: int, steps: seq<Step>)
    requires Runs(start, steps)
    ensures Restored(After(start, steps).refusals) <==> NoGain(After(start, steps).refusals)
  {
    var rs := After(start, steps).refusals;
    TokensAre(start, steps);
    if NoGain(rs) {
      RefusalsFall(start, steps);
      FallingRestored(rs);
    } else {
      var i, j :| 0 <= i < j < |rs| && j == i + 1 && Net(rs[j].at) > Net(rs[i].at);
      GainNotRestored(start, rs, i);
    }
  }

  /** The refusals since the last recharge always come out in order. */
  lemma InOrderSinceRecharge(start: int, steps: seq<Step>, k: nat)
    requires Runs(start, steps) && k <= |After(start, steps).refusals|
    requires forall i :: k <= i < |After(start, steps).refusals| ==>
               After(start, steps).refusals[i].at.recharges == After(start, steps).tally.recharges
    ensures Restored(After(start, steps).refusals[k..])
  {
    var late := After(start, steps).refusals[k..];
    forall i, j | 0 <= i < j < |late| ensures late[i].token > late[j].token {
      FallsExactly(start, steps, k + i, k + j);
    }
    FallingRestored(late);
  }

  /** Any recharge of a quota in debt that is not zero makes the next refusal sort first
      or level: for every amount of debt and of recharge there is such a run. */
  lemma OrderLostAcrossRecharge(start: int, q: nat) returns (steps: seq<Step>)
    requires 1 <= q <= 1 - start
    ensures Runs(start, steps)
    ensures var rs := After(start, steps).refusals;
            |rs| == 2 && rs[0].token == start && rs[1].token == start - 1 + q && !Restored(rs)
  {
    steps := PushCall(start, [], Acquire(1), 1, q);
    assert After(start, steps).quota == start - 1 && |After(start, steps).refusals| == 1;
    steps := PushCall(start, steps, Recharge(q), 1, q);
    assert After(start, steps).quota == start - 1 + q && After(start, steps).tally == Tally(0, q, 0, 1);
    steps := PushCall(start, steps, Acquire(1), 1, q);
    assert After(start, steps).refusals[1] == Refusal(start - 1 + q, 0, Tally(0, q, 0, 1));
    TokensAre(start, steps);
    assert After(start, steps).refusals[0].at == Tally(0, 0, 0, 0);
    GainNotRestored(start, After(start, steps).refusals, 0);
  }
}
