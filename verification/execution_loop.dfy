/** The execution loop with its safety rails and its pool of pre-signed orders. */
module ExecutionLoop {
  import opened Text
  import opened Rounds
  import opened Words
  import opened CircuitBreaker
  import opened RateLimits

  class PreSignedOrderPool {
    const bodies: seq<string>
    var cursor: nat

    constructor (bodies: seq<string>)
      ensures this.bodies == bodies && cursor == 0
    {
      this.bodies, cursor := bodies, 0;
    }

    method Dispatch() returns (body: Option<string>)
      modifies this
      ensures body == if old(cursor) < |bodies| then Some(bodies[old(cursor)]) else None
      ensures cursor == if body.Some? then old(cursor) + 1 else old(cursor)
    {
      if cursor >= |bodies| { return None; }
      body := Some(bodies[cursor]);
      cursor := cursor + 1;
    }

    method ResetCursor()
      modifies this
      ensures cursor == 0
    {
      cursor := 0;
    }
  }

  /** How the wire answers a dispatch. */
  datatype Outcome = Sent | Rejected | RejectedOnReconnect

  /** What one turn of the loop finds: a trigger with its dollar amount, the time, whether
      somebody trips the shared breaker in the middle of the turn, and the answer a dispatch
      would get; nothing; a closed channel; the shutdown flag; or a breaker that somebody trips
      between turns. */
  datatype Event =
    | Trigger(cents: nat, nowNs: nat, tripsMidway: bool, outcome: Outcome)
    | Empty
    | Disconnected
    | Shutdown
    | TrippedByHand

  datatype Entry =
    | WouldFire
    | Permitted(cents: nat)
    | Signed
    | Posted(body: string)
    | Exhausted

  datatype Setup = Setup(bodies: seq<string>, dryRun: bool, signs: bool)

  datatype Loop = Loop(
    running: bool, breaker: Breaker, limiter: Limiter, guardHeld: bool, cursor: nat, log: seq<Entry>)

  function Refilled(n: nat, cursor: nat): nat {
    var remaining := if n >= cursor then n - cursor else 0;
    if remaining <= n / 5 && n > 0 then 0 else cursor
  }

  /** The breaker as the second check of a turn finds it. */
  function AtCheck(b: Breaker, e: Event): Breaker
    requires e.Trigger?
  {
    b.(tripped := b.tripped || e.tripsMidway)
  }

  /** The live part of a turn, with the guard held. */
  function Fired(c: Setup, s: Loop, e: Event): Loop
    requires e.Trigger?
  {
    var (breaker, verdict) := Checked(AtCheck(s.breaker, e), e.cents);
    if verdict != Ok then s.(breaker := breaker, running := false)
    else
      var entry :=
        if c.signs then Signed else if s.cursor < |c.bodies| then Posted(c.bodies[s.cursor]) else Exhausted;
      var cursor := if entry.Posted? then s.cursor + 1 else s.cursor;
      var log := s.log + [Permitted(e.cents), entry];
      if e.outcome.RejectedOnReconnect? && !entry.Exhausted? then
        s.(breaker := breaker.(tripped := true), running := false, cursor := cursor, log := log)
      else
        s.(breaker := breaker, cursor := Refilled(|c.bodies|, cursor), log := log)
  }

  function Turn(c: Setup, s: Loop, e: Event): Loop {
    if !s.running then s
    else match e
    case Empty => s
    case Disconnected => s.(running := false)
    case Shutdown => s.(running := false)
    case TrippedByHand => s.(breaker := s.breaker.(tripped := true))
    case Trigger(cents, nowNs, tripsMidway, outcome) =>
      if s.breaker.tripped then s.(running := false)
      else
        var (limiter, admitted) := Acquired(s.limiter, nowNs);
        var t := s.(limiter := limiter);
        if !admitted || s.guardHeld then t
        else if c.dryRun then t.(log := s.log + [WouldFire])
        else Fired(c, t, e)
  }

  function Run(c: Setup, s: Loop, events: seq<Event>): Loop {
    if events == [] then s else Turn(c, Run(c, s, events[..|events| - 1]), events[|events| - 1])
  }

  lemma {:induction false} StoppedStays(c: Setup, s: Loop, events: seq<Event>, i: nat)
    requires i <= |events| && !Run(c, s, events[..i]).running
    ensures Run(c, s, events) == Run(c, s, events[..i])
    decreases |events| - i
  {
    if i < |events| {
      assert events[..i + 1][..i] == events[..i];
      StoppedStays(c, s, events, i + 1);
    } else {
      assert events[..i] == events;
    }
  }

  /** The loop, turn by turn, over the shared objects. */
  method RunExecutionLoop(
    events: seq<Event>, presigned: PreSignedOrderPool, dryRun: bool, signs: bool,
    breaker: SharedBreaker, limiter: RateLimiter, guard: OrderGuard) returns (log: seq<Entry>)
    modifies presigned, breaker, limiter, guard
    ensures var c := Setup(presigned.bodies, dryRun, signs);
            var start := Loop(true, old(breaker.View()), old(limiter.View()), old(guard.inFlight),
                              old(presigned.cursor), []);
            var s := Run(c, start, events);
            && breaker.View() == s.breaker && limiter.View() == s.limiter
            && guard.inFlight == s.guardHeld && presigned.cursor == s.cursor && log == s.log
  {
    ghost var c := Setup(presigned.bodies, dryRun, signs);
    ghost var start := Loop(true, breaker.View(), limiter.View(), guard.inFlight, presigned.cursor, []);
    var running, i := true, 0;
    log := [];
    while i < |events| && running
      invariant i <= |events|
      invariant Loop(running, breaker.View(), limiter.View(), guard.inFlight, presigned.cursor, log) ==
                Run(c, start, events[..i])
    {
      assert events[..i + 1][..i] == events[..i];
      running, log := OneTurn(events[i], presigned, dryRun, signs, breaker, limiter, guard, log);
      i := i + 1;
    }
    StoppedOrDone(c, start, events, i, running);
  }

  lemma StoppedOrDone(c: Setup, s: Loop, events: seq<Event>, i: nat, running: bool)
    requires i <= |events| && (i == |events| || !running) && running == Run(c, s, events[..i]).running
    ensures Run(c, s, events) == Run(c, s, events[..i])
  {
    if running { assert events[..i] == events; } else { StoppedStays(c, s, events, i); }
  }

  method OneTurn(
    e: Event, presigned: PreSignedOrderPool, dryRun: bool, signs: bool,
    breaker: SharedBreaker, limiter: RateLimiter, guard: OrderGuard, before: seq<Entry>)
    returns (running: bool, log: seq<Entry>)
    modifies presigned, breaker, limiter, guard
    ensures Loop(running, breaker.View(), limiter.View(), guard.inFlight, presigned.cursor, log) ==
            Turn(Setup(presigned.bodies, dryRun, signs),
                 old(Loop(true, breaker.View(), limiter.View(), guard.inFlight, presigned.cursor, before)), e)
  {
    running, log := true, before;
    match e
    case Empty =>
    case Disconnected => running := false;
    case Shutdown => running := false;
    case TrippedByHand => breaker.TripNow();
    case Trigger(cents, nowNs, tripsMidway, outcome) =>
      if breaker.tripped { return false, log; }
      var admitted := limiter.TryAcquire(nowNs);
      if !admitted { return; }
      var acquired := guard.TryAcquire();
      if !acquired { return; }
      if dryRun {
        log := log + [WouldFire];
        guard.Release();
        return;
      }
      if tripsMidway { breaker.TripNow(); }
      var verdict := breaker.CheckAndRecord(cents);
      if verdict != Ok {
        guard.Release();
        return false, log;
      }
      log := log + [Permitted(cents)];
      var exhausted := false;
      if signs {
        log := log + [Signed];
      } else {
        var body := presigned.Dispatch();
        exhausted := body.None?;
        log := log + [if exhausted then Exhausted else Posted(body.value)];
      }
      guard.Release();
      assert log == before + [Permitted(cents), log[|log| - 1]];
      if outcome.RejectedOnReconnect? && !exhausted {
        breaker.TripNow();
        return false, log;
      }
      var n := |presigned.bodies|;
      var remaining := if n >= presigned.cursor then n - presigned.cursor else 0;
      if remaining <= n / 5 && n > 0 {
        presigned.ResetCursor();
      }
  }

  // ---- the pool never runs dry ----

  function Posts(log: seq<Entry>): seq<string> {
    if log == [] then []
    else if log[|log| - 1].Posted? then Posts(log[..|log| - 1]) + [log[|log| - 1].body]
    else Posts(log[..|log| - 1])
  }

  lemma PostsGrow(log: seq<Entry>, cents: nat, entry: Entry)
    ensures Posts(log + [Permitted(cents), entry]) == Posts(log) + if entry.Posted? then [entry.body] else []
    ensures Posts(log + [WouldFire]) == Posts(log)
  {
    var one, two := log + [Permitted(cents)], log + [Permitted(cents), entry];
    assert two[..|two| - 1] == one && one[..|one| - 1] == log;
    assert (log + [WouldFire])[..|log|] == log;
  }

  /** The bodies a pool of n is cycled through before it is refilled. */
  function Cycle(n: nat): nat {
    n - n / 5
  }

  predicate Cycling(c: Setup, s: Loop) {
    var n := |c.bodies|;
    && n > 0
    && Exhausted !in s.log
    && (s.running ==> s.cursor == |Posts(s.log)| % Cycle(n))
    && (forall k | 0 <= k < |Posts(s.log)| :: Posts(s.log)[k] == c.bodies[k % Cycle(n)])
  }

  lemma CycleSmall(n: nat, k: nat)
    requires n > 0
    ensures 0 < Cycle(n) <= n && k % Cycle(n) < n
  {
  }

  /** After the k-th body of a running count the cursor stands where the next one starts. */
  lemma NextOfCycle(n: nat, k: nat)
    requires n > 0
    ensures Refilled(n, k % Cycle(n) + 1) == (k + 1) % Cycle(n)
    ensures Refilled(n, k % Cycle(n)) == k % Cycle(n)
  {
    CycleSmall(n, k);
    NextRound(k, Cycle(n));
  }

  lemma FiredKeepsCycling(c: Setup, s: Loop, e: Event)
    requires e.Trigger? && s.running && Cycling(c, s)
    ensures Cycling(c, Fired(c, s, e))
  {
    hide Checked, Posts, Refilled, Cycle;
    var n, k := |c.bodies|, |Posts(s.log)|;
    CycleSmall(n, k);
    NextOfCycle(n, k);
    PostsGrow(s.log, e.cents, if c.signs then Signed else Posted(c.bodies[s.cursor]));
  }

  lemma {:induction false} RunKeepsCycling(c: Setup, s: Loop, events: seq<Event>)
    requires Cycling(c, s)
    ensures Cycling(c, Run(c, s, events))
  {
    if events != [] {
      var before, e := Run(c, s, events[..|events| - 1]), events[|events| - 1];
      RunKeepsCycling(c, s, events[..|events| - 1]);
      TurnKeepsCycling(c, before, e);
    }
  }

  lemma TurnKeepsCycling(c: Setup, s: Loop, e: Event)
    requires Cycling(c, s)
    ensures Cycling(c, Turn(c, s, e))
  {
    hide Fired, Acquired;
    PostsGrow(s.log, 0, Signed);
    if s.running && e.Trigger? { FiredKeepsCycling(c, s.(limiter := Acquired(s.limiter, e.nowNs).0), e); }
  }

  /** Over every run from a fresh pool, no dispatch finds the pool exhausted, and the k-th
      posted order carries body k mod (n - n/5). */
  lemma PoolNeverRunsDry(c: Setup, s: Loop, events: seq<Event>)
    requires c.bodies != [] && s.running && s.cursor == 0 && s.log == []
    ensures var r := Run(c, s, events);
            && Exhausted !in r.log
            && forall k | 0 <= k < |Posts(r.log)| :: Posts(r.log)[k] == c.bodies[k % Cycle(|c.bodies|)]
  {
    CycleSmall(|c.bodies|, 0);
    RunKeepsCycling(c, s, events);
  }

  // ---- the rails hold ----

  predicate Dispatch(e: Entry) {
    e.Signed? || e.Posted? || e.Exhausted?
  }

  /** Every dispatch follows its own permission. */
  predicate Ordered(log: seq<Entry>) {
    && (forall i | 0 <= i < |log| :: Dispatch(log[i]) ==> i > 0 && log[i - 1].Permitted?)
    && (forall i | 0 <= i < |log| :: log[i].Permitted? ==> i + 1 < |log| && Dispatch(log[i + 1]))
  }

  function PermittedCount(log: seq<Entry>): nat {
    if log == [] then 0
    else PermittedCount(log[..|log| - 1]) + if log[|log| - 1].Permitted? then 1 else 0
  }

  function PermittedCents(log: seq<Entry>): nat {
    if log == [] then 0
    else PermittedCents(log[..|log| - 1]) + if log[|log| - 1].Permitted? then log[|log| - 1].cents else 0
  }

  lemma PermittedGrow(log: seq<Entry>, cents: nat, entry: Entry)
    requires Dispatch(entry)
    ensures PermittedCount(log + [Permitted(cents), entry]) == PermittedCount(log) + 1
    ensures PermittedCents(log + [Permitted(cents), entry]) == PermittedCents(log) + cents
    ensures PermittedCount(log + [WouldFire]) == PermittedCount(log)
    ensures PermittedCents(log + [WouldFire]) == PermittedCents(log)
  {
    var one, two := log + [Permitted(cents)], log + [Permitted(cents), entry];
    assert two[..|two| - 1] == one && one[..|one| - 1] == log;
    assert (log + [WouldFire])[..|log|] == log;
  }

  /** What the breaker has counted is what was permitted, as long as the loop goes on. */
  predicate Accounted(start: Breaker, s: Loop) {
    && s.breaker.maxOrders == start.maxOrders && s.breaker.maxUsdCents == start.maxUsdCents
    && start.ordersFired + PermittedCount(s.log) <= start.maxOrders
    && start.usdCents + PermittedCents(s.log) <= start.maxUsdCents
    && (s.running ==> s.breaker.ordersFired == start.ordersFired + PermittedCount(s.log))
    && (s.running ==> s.breaker.usdCents == start.usdCents + PermittedCents(s.log))
  }

  predicate Railed(c: Setup, start: Loop, s: Loop) {
    && Ordered(s.log)
    && s.guardHeld == start.guardHeld
    && (c.dryRun || start.guardHeld ==>
          PermittedCount(s.log) == 0
          && s.breaker == start.breaker.(tripped := s.breaker.tripped) && s.cursor == start.cursor)
  }

  lemma OrderedGrows(log: seq<Entry>, cents: nat, entry: Entry)
    requires Ordered(log) && Dispatch(entry)
    ensures Ordered(log + [Permitted(cents), entry])
    ensures Ordered(log + [WouldFire])
  {
    var two := log + [Permitted(cents), entry];
    forall i | 0 <= i < |two|
      ensures Dispatch(two[i]) ==> i > 0 && two[i - 1].Permitted?
      ensures two[i].Permitted? ==> i + 1 < |two| && Dispatch(two[i + 1])
    {
      if i < |log| { assert two[i] == log[i]; }
    }
  }

  lemma FiredStaysRailed(c: Setup, start: Loop, s: Loop, e: Event)
    requires e.Trigger? && s.running && !c.dryRun && !s.guardHeld && Railed(c, start, s)
    ensures Railed(c, start, Fired(c, s, e))
  {
    hide Checked, Ordered, PermittedCount, Refilled;
    OrderedGrows(s.log, e.cents, FiredEntry(c, s));
  }

  function FiredEntry(c: Setup, s: Loop): Entry {
    if c.signs then Signed else if s.cursor < |c.bodies| then Posted(c.bodies[s.cursor]) else Exhausted
  }

  lemma TurnStaysRailed(c: Setup, start: Loop, s: Loop, e: Event)
    requires Railed(c, start, s)
    ensures Railed(c, start, Turn(c, s, e))
  {
    hide Fired, Acquired, Ordered, Refilled, PermittedCount, PermittedCents;
    OrderedGrows(s.log, 0, Signed);
    PermittedGrow(s.log, 0, Signed);
    if s.running && e.Trigger? && !c.dryRun && !s.guardHeld {
      FiredStaysRailed(c, start, s.(limiter := Acquired(s.limiter, e.nowNs).0), e);
    }
  }

  lemma {:induction false} RunStaysRailed(c: Setup, s: Loop, events: seq<Event>)
    requires s.running && s.log == []
    ensures Railed(c, s, Run(c, s, events))
  {
    hide Turn;
    if events != [] {
      var before := events[..|events| - 1];
      RunStaysRailed(c, s, before);
      TurnStaysRailed(c, s, Run(c, s, before), events[|events| - 1]);
    }
  }

  /** Over every run: each dispatch directly follows a permission of the breaker and each
      permission is used; a dry run, or a guard held by somebody else, never dispatches and
      never records; and the guard is left as it was found. */
  lemma RailsHold(c: Setup, s: Loop, events: seq<Event>)
    requires s.running && s.log == []
    ensures var r := Run(c, s, events);
            && Ordered(r.log)
            && r.guardHeld == s.guardHeld
            && (c.dryRun || s.guardHeld ==>
                  && (forall i | 0 <= i < |r.log| :: !Dispatch(r.log[i]))
                  && r.breaker.ordersFired == s.breaker.ordersFired && r.breaker.usdCents == s.breaker.usdCents)
  {
    RunStaysRailed(c, s, events);
    var r := Run(c, s, events);
    if c.dryRun || s.guardHeld {
      forall i | 0 <= i < |r.log| ensures !Dispatch(r.log[i]) {
        if Dispatch(r.log[i]) { PermittedCounted(r.log, i - 1); }
      }
    }
  }

  // ---- the limits hold ----

  /** Without wrap-around a permission adds exactly one order and its cents, within the limits. */
  lemma CheckedExactly(b: Breaker, cents: nat)
    requires b.ordersFired + 1 < WORD && b.usdCents + cents < WORD
    ensures var (r, verdict) := Checked(b, cents);
            && r.maxOrders == b.maxOrders && r.maxUsdCents == b.maxUsdCents
            && (verdict == Ok ==>
                  && r == b.(ordersFired := b.ordersFired + 1, usdCents := b.usdCents + cents)
                  && b.ordersFired + 1 <= b.maxOrders && b.usdCents + cents <= b.maxUsdCents)
  {
  }

  lemma FiredStaysAccounted(c: Setup, start: Breaker, s: Loop, e: Event)
    requires e.Trigger? && s.running && Accounted(start, s)
    requires s.breaker.ordersFired + 1 < WORD && s.breaker.usdCents + e.cents < WORD
    ensures Accounted(start, Fired(c, s, e))
  {
    hide Checked, PermittedCount, PermittedCents, Refilled;
    CheckedExactly(AtCheck(s.breaker, e), e.cents);
    PermittedGrow(s.log, e.cents, FiredEntry(c, s));
  }

  predicate UpTo(e: Event, cap: nat) {
    e.Trigger? ==> e.cents <= cap
  }

  /** A loop about to start, its breaker within these limits. */
  predicate Starting(s: Loop, maxOrders: nat, maxUsdCents: nat) {
    && s.running && s.log == []
    && s.breaker.maxOrders == maxOrders && s.breaker.maxUsdCents == maxUsdCents
    && s.breaker.ordersFired <= maxOrders && s.breaker.usdCents <= maxUsdCents
  }

  lemma {:induction false} RunStaysAccounted(c: Setup, s: Loop, events: seq<Event>, cap: nat)
    requires Starting(s, s.breaker.maxOrders, s.breaker.maxUsdCents)
    requires s.breaker.maxOrders < U64_MAX && s.breaker.maxUsdCents + cap < WORD
    requires forall e | e in events :: UpTo(e, cap)
    ensures Accounted(s.breaker, Run(c, s, events))
  {
    hide Fired, Acquired, PermittedCount, PermittedCents;
    if events == [] {
      NothingPermitted();
    } else {
      var n := |events| - 1;
      RunStaysAccounted(c, s, events[..n], cap);
      var t, e := Run(c, s, events[..n]), events[n];
      PermittedGrow(t.log, 0, Signed);
      assert UpTo(e, cap);
      if t.running && e.Trigger? {
        FiredStaysAccounted(c, s.breaker, t.(limiter := Acquired(t.limiter, e.nowNs).0), e);
      }
    }
  }

  lemma NothingPermitted()
    ensures PermittedCount([]) == 0 && PermittedCents([]) == 0
  {
  }

  /** The orders and dollars of all dispatches together stay within the breaker's limits. */
  predicate WithinLimits(c: Setup, s: Loop, events: seq<Event>) {
    var log := Run(c, s, events).log;
    && s.breaker.ordersFired + PermittedCount(log) <= s.breaker.maxOrders
    && s.breaker.usdCents + PermittedCents(log) <= s.breaker.maxUsdCents
  }

  /** They do over every run with triggers of at most so many cents exactly when these cents on
      top of the dollar limit fit a u64. */
  lemma LimitsHoldExactly(maxOrders: nat, maxUsdCents: nat, cap: nat)
    requires 1 <= maxOrders < U64_MAX && maxUsdCents < WORD && cap < WORD
    ensures (forall c: Setup, s: Loop, events: seq<Event>
               | Starting(s, maxOrders, maxUsdCents) && (forall e | e in events :: UpTo(e, cap)) ::
               WithinLimits(c, s, events))
            <==> maxUsdCents + cap < WORD
  {
    if maxUsdCents + cap < WORD {
      forall c: Setup, s: Loop, events: seq<Event>
        | Starting(s, maxOrders, maxUsdCents) && (forall e | e in events :: UpTo(e, cap))
        ensures WithinLimits(c, s, events)
      {
        RunStaysAccounted(c, s, events, cap);
      }
    } else {
      var c, events := Setup([], false, true), [Trigger(cap, SECOND_NS, false, Sent)];
      var s := Loop(true, Breaker(0, maxUsdCents, maxOrders, maxUsdCents, false), Limiter(1, 0, 0), false, 0, []);
      OneTriggerWraps(c, s, events, cap);
      assert Starting(s, maxOrders, maxUsdCents) && forall e | e in events :: UpTo(e, cap);
    }
  }

  lemma OneTriggerWraps(c: Setup, s: Loop, events: seq<Event>, cap: nat)
    requires c == Setup([], false, true) && events == [Trigger(cap, SECOND_NS, false, Sent)]
    requires 1 <= s.breaker.maxOrders < U64_MAX && s.breaker.maxUsdCents < WORD && cap < WORD
    requires s == Loop(true, Breaker(0, s.breaker.maxUsdCents, s.breaker.maxOrders, s.breaker.maxUsdCents, false),
                       Limiter(1, 0, 0), false, 0, [])
    requires s.breaker.maxUsdCents + cap >= WORD
    ensures !WithinLimits(c, s, events)
  {
    hide Checked, Refilled, PermittedCount, PermittedCents;
    AcceptsExactly(s.breaker, cap);
    assert events[..0] == [];
    assert Run(c, s, events) == Turn(c, s, events[0]);
    PermittedGrow([], cap, Signed);
    NothingPermitted();
    assert Run(c, s, events).log == [] + [Permitted(cap), Signed];
  }

  lemma {:induction false} PermittedCounted(log: seq<Entry>, i: nat)
    requires i < |log| && log[i].Permitted?
    ensures PermittedCount(log) >= 1
  {
    if i < |log| - 1 { PermittedCounted(log[..|log| - 1], i); }
  }
}
