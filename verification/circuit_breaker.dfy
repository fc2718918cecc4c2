/** The lock-free circuit breaker: each call advances by atomic steps that any other call may
    come between. */
module CircuitBreaker {
  import opened Words

  datatype Result = Ok | AlreadyTripped | OrdersExceeded | UsdExceeded

  /** Where a call is: about to load the flag, to add its order, to add its cents, or to store
      the flag after a limit was exceeded. */
  datatype At =
    | Loading
    | AddingOrder
    | TrippingOrders
    | AddingCents
    | TrippingUsd
    | Done(result: Result)

  datatype Call = Call(cents: nat, at: At)

  datatype Breaker = Breaker(
    ordersFired: nat, usdCents: nat, maxOrders: nat, maxUsdCents: nat, tripped: bool)

  datatype System = System(breaker: Breaker, calls: seq<Call>)

  /** Adding to an atomic counter wraps around. */
  function FetchAdd(counter: nat, n: nat): nat {
    (counter + n) % WORD
  }

  /** One atomic step of one call. */
  function Advanced(b: Breaker, c: Call): (Breaker, Call) {
    match c.at
    case Loading => (b, c.(at := if b.tripped then Done(AlreadyTripped) else AddingOrder))
    case AddingOrder =>
      var total := FetchAdd(b.ordersFired, 1);
      (b.(ordersFired := total), c.(at := if total > b.maxOrders then TrippingOrders else AddingCents))
    case TrippingOrders => (b.(tripped := true), c.(at := Done(OrdersExceeded)))
    case AddingCents =>
      var total := FetchAdd(b.usdCents, c.cents);
      (b.(usdCents := total), c.(at := if total > b.maxUsdCents then TrippingUsd else Done(Ok)))
    case TrippingUsd => (b.(tripped := true), c.(at := Done(UsdExceeded)))
    case Done(_) => (b, c)
  }

  /** The scheduler picks a call, or somebody trips the breaker by hand. */
  datatype Step = Advance(call: nat) | Trip

  function Next(s: System, step: Step): (t: System)
    ensures |t.calls| == |s.calls|
  {
    match step
    case Advance(i) =>
      if i < |s.calls| then
        var (b, c) := Advanced(s.breaker, s.calls[i]);
        System(b, s.calls[i := c])
      else s
    case Trip => s.(breaker := s.breaker.(tripped := true))
  }

  function Run(s: System, steps: seq<Step>): System {
    if steps == [] then s else Next(Run(s, steps[..|steps| - 1]), steps[|steps| - 1])
  }

  // ---- counting calls ----

  function Sum(calls: seq<Call>, weight: Call -> nat): nat {
    if calls == [] then 0 else Sum(calls[..|calls| - 1], weight) + weight(calls[|calls| - 1])
  }

  lemma {:induction false} SumUpdate(calls: seq<Call>, weight: Call -> nat, i: nat, c: Call)
    requires i < |calls|
    ensures Sum(calls[i := c], weight) + weight(calls[i]) == Sum(calls, weight) + weight(c)
  {
    var n := |calls| - 1;
    if i < n {
      SumUpdate(calls[..n], weight, i, c);
      assert calls[i := c][..n] == calls[..n][i := c];
    } else {
      assert calls[i := c][..n] == calls[..n];
    }
  }

  lemma {:induction false} SumMonotone(calls: seq<Call>, small: Call -> nat, large: Call -> nat)
    requires forall i | 0 <= i < |calls| :: small(calls[i]) <= large(calls[i])
    ensures Sum(calls, small) <= Sum(calls, large)
  {
    if calls != [] { SumMonotone(calls[..|calls| - 1], small, large); }
  }

  function One(c: Call): nat { 1 }

  function Cents(c: Call): nat { c.cents }

  function Succeeded(c: Call): nat {
    if c.at == Done(Ok) then 1 else 0
  }

  function SucceededCents(c: Call): nat {
    if c.at == Done(Ok) then c.cents else 0
  }

  function Counted(c: Call): nat {
    if c.at.Loading? || c.at.AddingOrder? || c.at == Done(AlreadyTripped) then 0 else 1
  }

  /** Counted, and within the order limit. */
  function Admitted(c: Call): nat {
    if c.at.AddingCents? || c.at.TrippingUsd? || c.at == Done(Ok) || c.at == Done(UsdExceeded) then 1 else 0
  }

  function ChargedCents(c: Call): nat {
    if c.at.TrippingUsd? || c.at == Done(Ok) || c.at == Done(UsdExceeded) then c.cents else 0
  }

  function Successes(s: System): nat { Sum(s.calls, Succeeded) }

  function SuccessCents(s: System): nat { Sum(s.calls, SucceededCents) }

  lemma {:induction false} SumOne(calls: seq<Call>)
    ensures Sum(calls, One) == |calls|
  {
    if calls != [] { SumOne(calls[..|calls| - 1]); }
  }

  // ---- the invariant of all interleavings ----

  function Min(a: nat, b: nat): nat { if a <= b then a else b }

  /** Fresh calls on a breaker within its limits, with counters that cannot wrap. */
  predicate Fresh(s: System) {
    && (forall i | 0 <= i < |s.calls| :: s.calls[i].at.Loading?)
    && s.breaker.ordersFired <= s.breaker.maxOrders
    && s.breaker.usdCents <= s.breaker.maxUsdCents
    && s.breaker.ordersFired + |s.calls| < WORD
    && s.breaker.usdCents + Sum(s.calls, Cents) < WORD
  }

  predicate Consistent(start: System, s: System) {
    && |s.calls| == |start.calls|
    && (forall i | 0 <= i < |s.calls| :: s.calls[i].cents == start.calls[i].cents)
    && s.breaker.maxOrders == start.breaker.maxOrders
    && s.breaker.maxUsdCents == start.breaker.maxUsdCents
    && s.breaker.ordersFired == start.breaker.ordersFired + Sum(s.calls, Counted)
    && s.breaker.usdCents == start.breaker.usdCents + Sum(s.calls, ChargedCents)
    && start.breaker.ordersFired + Sum(s.calls, Admitted) == Min(s.breaker.ordersFired, s.breaker.maxOrders)
    && start.breaker.usdCents + Sum(s.calls, SucceededCents) <= Min(s.breaker.usdCents, s.breaker.maxUsdCents)
  }

  lemma {:induction false} SumCentsSame(a: seq<Call>, b: seq<Call>)
    requires |a| == |b| && forall i | 0 <= i < |a| :: a[i].cents == b[i].cents
    ensures Sum(a, Cents) == Sum(b, Cents)
  {
    if a != [] { SumCentsSame(a[..|a| - 1], b[..|b| - 1]); }
  }

  lemma {:induction false} SumNothing(calls: seq<Call>, weight: Call -> nat)
    requires forall i | 0 <= i < |calls| :: weight(calls[i]) == 0
    ensures Sum(calls, weight) == 0
  {
    if calls != [] { SumNothing(calls[..|calls| - 1], weight); }
  }

  lemma {:induction false} SumStrict(calls: seq<Call>, small: Call -> nat, large: Call -> nat, k: nat)
    requires k < |calls|
    requires forall i | 0 <= i < |calls| :: small(calls[i]) <= large(calls[i])
    ensures Sum(calls, small) + large(calls[k]) - small(calls[k]) <= Sum(calls, large)
  {
    var n := |calls| - 1;
    if k < n { SumStrict(calls[..n], small, large, k); } else { SumMonotone(calls[..n], small, large); }
  }

  /** A call about to add can do so without wrapping. */
  lemma NoWrap(start: System, s: System, i: nat)
    requires Fresh(start) && Consistent(start, s) && i < |s.calls|
    ensures s.calls[i].at.AddingOrder? ==> FetchAdd(s.breaker.ordersFired, 1) == s.breaker.ordersFired + 1
    ensures s.calls[i].at.AddingCents? ==>
              FetchAdd(s.breaker.usdCents, s.calls[i].cents) == s.breaker.usdCents + s.calls[i].cents
  {
    SumStrict(s.calls, Counted, One, i);
    SumStrict(s.calls, ChargedCents, Cents, i);
    SumOne(s.calls);
    SumCentsSame(s.calls, start.calls);
  }

  lemma StepConsistent(start: System, s: System, step: Step)
    requires Fresh(start) && Consistent(start, s)
    ensures Consistent(start, Next(s, step))
  {
    hide FetchAdd, Sum;
    if step.Advance? && step.call < |s.calls| {
      var i := step.call;
      var (b, c) := Advanced(s.breaker, s.calls[i]);
      NoWrap(start, s, i);
      SumUpdate(s.calls, Counted, i, c);
      SumUpdate(s.calls, ChargedCents, i, c);
      SumUpdate(s.calls, Admitted, i, c);
      SumUpdate(s.calls, SucceededCents, i, c);
    }
  }

  lemma {:induction false} RunConsistent(start: System, steps: seq<Step>)
    requires Fresh(start)
    ensures Consistent(start, Run(start, steps))
  {
    if steps == [] {
      SumNothing(start.calls, Counted);
      SumNothing(start.calls, ChargedCents);
      SumNothing(start.calls, Admitted);
      SumNothing(start.calls, SucceededCents);
    } else {
      RunConsistent(start, steps[..|steps| - 1]);
      StepConsistent(start, Run(start, steps[..|steps| - 1]), steps[|steps| - 1]);
    }
  }

  /** Under every interleaving, with trips by hand at any moment, successful calls never take
      the order count or the dollar total past its limit. */
  lemma LimitsHold(start: System, steps: seq<Step>)
    requires Fresh(start)
    ensures start.breaker.ordersFired + Successes(Run(start, steps)) <= start.breaker.maxOrders
    ensures start.breaker.usdCents + SuccessCents(Run(start, steps)) <= start.breaker.maxUsdCents
  {
    RunConsistent(start, steps);
    SumMonotone(Run(start, steps).calls, Succeeded, Admitted);
  }

  // ---- exactness ----

  predicate Refused(c: Call) {
    c.at.TrippingOrders? || c.at == Done(OrdersExceeded) || c.at == Done(AlreadyTripped)
  }

  /** Nobody was refused before the orders ran out, and nobody for the dollars. */
  predicate OnlyOrdersRefuse(s: System) {
    && (s.breaker.tripped ==> s.breaker.ordersFired > s.breaker.maxOrders)
    && (forall i | 0 <= i < |s.calls| :: Refused(s.calls[i]) ==> s.breaker.ordersFired > s.breaker.maxOrders)
    && (forall i | 0 <= i < |s.calls| :: !s.calls[i].at.TrippingUsd? && s.calls[i].at != Done(UsdExceeded))
  }

  predicate AllDone(s: System) {
    forall i | 0 <= i < |s.calls| :: s.calls[i].at.Done?
  }

  predicate NoTrip(steps: seq<Step>) {
    forall i | 0 <= i < |steps| :: steps[i].Advance?
  }

  lemma StepRefusesOnlyForOrders(start: System, s: System, step: Step)
    requires Fresh(start) && Consistent(start, s) && OnlyOrdersRefuse(s) && step.Advance?
    requires start.breaker.usdCents + Sum(start.calls, Cents) <= start.breaker.maxUsdCents
    ensures OnlyOrdersRefuse(Next(s, step))
  {
    hide FetchAdd, Sum;
    if step.call < |s.calls| {
      var i := step.call;
      NoWrap(start, s, i);
      SumStrict(s.calls, ChargedCents, Cents, i);
      SumCentsSame(s.calls, start.calls);
    }
  }

  lemma {:induction false} RunRefusesOnlyForOrders(start: System, steps: seq<Step>)
    requires Fresh(start) && !start.breaker.tripped && NoTrip(steps)
    requires start.breaker.usdCents + Sum(start.calls, Cents) <= start.breaker.maxUsdCents
    ensures OnlyOrdersRefuse(Run(start, steps))
  {
    if steps != [] {
      var before := steps[..|steps| - 1];
      RunRefusesOnlyForOrders(start, before);
      RunConsistent(start, before);
      StepRefusesOnlyForOrders(start, Run(start, before), steps[|steps| - 1]);
    }
  }

  lemma {:induction false} SumEqual(calls: seq<Call>, a: Call -> nat, b: Call -> nat)
    requires forall i | 0 <= i < |calls| :: a(calls[i]) == b(calls[i])
    ensures Sum(calls, a) == Sum(calls, b)
  {
    if calls != [] { SumEqual(calls[..|calls| - 1], a, b); }
  }

  lemma NobodyRefused(s: System, i: nat)
    requires OnlyOrdersRefuse(s) && AllDone(s) && s.breaker.ordersFired <= s.breaker.maxOrders && i < |s.calls|
    ensures s.calls[i].at == Done(Ok)
  {
    var r := s.calls[i].at.result;
    assert s.calls[i].at == Done(r) && !Refused(s.calls[i]);
    assert r != AlreadyTripped && r != OrdersExceeded && r != UsdExceeded;
  }

  /** When the dollar limit cannot be reached and nobody trips the breaker, then once all calls
      have finished exactly as many succeeded as there were calls or orders left, whichever is
      less: no interleaving wastes a slot. */
  lemma EverySlotIsUsed(start: System, steps: seq<Step>)
    requires Fresh(start) && !start.breaker.tripped && NoTrip(steps)
    requires start.breaker.usdCents + Sum(start.calls, Cents) <= start.breaker.maxUsdCents
    requires AllDone(Run(start, steps))
    ensures Successes(Run(start, steps)) ==
            Min(|start.calls|, start.breaker.maxOrders - start.breaker.ordersFired)
  {
    var s := Run(start, steps);
    RunConsistent(start, steps);
    RunRefusesOnlyForOrders(start, steps);
    SumEqual(s.calls, Succeeded, Admitted);
    SumMonotone(s.calls, Counted, One);
    SumOne(s.calls);
    if s.breaker.ordersFired <= s.breaker.maxOrders {
      forall i | 0 <= i < |s.calls| ensures s.calls[i].at == Done(Ok) {
        NobodyRefused(s, i);
      }
      SumEqual(s.calls, Succeeded, One);
    }
  }

  // ---- a failure trips ----

  ghost predicate SomeoneFailed(s: System) {
    exists i :: 0 <= i < |s.calls| && FailedOnALimit(s.calls[i])
  }

  predicate FailedOnALimit(c: Call) {
    c.at == Done(OrdersExceeded) || c.at == Done(UsdExceeded)
  }

  ghost predicate FailuresTrip(start: System, s: System, byHand: bool) {
    && |s.calls| == |start.calls|
    && (forall i | 0 <= i < |s.calls| :: s.calls[i].at.Done? && s.calls[i].at != Done(Ok) ==> s.breaker.tripped)
    && (s.breaker.tripped <==> start.breaker.tripped || byHand || SomeoneFailed(s))
  }

  /** Under every interleaving of fresh calls, whatever the counters: a call that ends with any
      error leaves the breaker tripped behind it, and it is tripped only if it was before,
      somebody tripped it by hand, or a call ended past a limit. */
  lemma {:induction false} FailureTripsExactly(start: System, steps: seq<Step>)
    requires forall i | 0 <= i < |start.calls| :: start.calls[i].at.Loading?
    ensures FailuresTrip(start, Run(start, steps), !NoTrip(steps))
  {
    hide FailuresTrip, Next;
    if steps == [] {
      NobodyFailed(start);
    } else {
      var n := |steps| - 1;
      FailureTripsExactly(start, steps[..n]);
      FailureTripsStep(start, Run(start, steps[..n]), steps[n], !NoTrip(steps[..n]));
      TripsAmong(steps);
    }
  }

  lemma TripsAmong(steps: seq<Step>)
    requires steps != []
    ensures NoTrip(steps) <==> NoTrip(steps[..|steps| - 1]) && steps[|steps| - 1].Advance?
  {
    assert forall i | 0 <= i < |steps| - 1 :: steps[..|steps| - 1][i] == steps[i];
  }

  lemma NobodyFailed(start: System)
    requires forall i | 0 <= i < |start.calls| :: start.calls[i].at.Loading?
    ensures FailuresTrip(start, start, false)
  {
  }

  lemma FailureTripsStep(start: System, s: System, step: Step, byHand: bool)
    requires FailuresTrip(start, s, byHand)
    ensures FailuresTrip(start, Next(s, step), byHand || step.Trip?)
  {
    hide FetchAdd;
    var t := Next(s, step);
    if SomeoneFailed(s) {
      var i :| 0 <= i < |s.calls| && FailedOnALimit(s.calls[i]);
      assert FailedOnALimit(t.calls[i]);
    }
    if step.Advance? && step.call < |s.calls| {
      assert FailedOnALimit(t.calls[step.call]) ==> SomeoneFailed(t);
    }
  }

  // ---- a trip is final ----

  /** Once tripped, whoever tripped it: the breaker stays tripped, a call that had not loaded
      the flag yet fails or has still not done so, and so at most as many calls can still
      succeed as were past the flag. */
  lemma {:induction false} TripIsFinal(s: System, steps: seq<Step>)
    requires s.breaker.tripped
    ensures var t := Run(s, steps);
            && t.breaker.tripped && |t.calls| == |s.calls|
            && (forall i | 0 <= i < |s.calls| && s.calls[i].at.Loading? ::
                  t.calls[i].at.Loading? || t.calls[i].at == Done(AlreadyTripped))
            && (forall i | 0 <= i < |s.calls| && s.calls[i].at.Done? :: t.calls[i] == s.calls[i])
  {
    hide FetchAdd;
    if steps != [] { TripIsFinal(s, steps[..|steps| - 1]); }
  }

  /** Past the flag and not yet decided. */
  function UnderWay(c: Call): nat {
    if c.at.AddingOrder? || c.at.AddingCents? then 1 else 0
  }

  lemma TripStopsTheRest(s: System, steps: seq<Step>)
    requires s.breaker.tripped
    ensures Successes(Run(s, steps)) <= Successes(s) + Sum(s.calls, UnderWay)
  {
    TripIsFinal(s, steps);
    NoLateSuccess(s, steps);
    SuccessesSplit(Run(s, steps).calls, s.calls);
  }

  lemma {:induction false} NoLateSuccess(s: System, steps: seq<Step>)
    ensures var t := Run(s, steps);
            |t.calls| == |s.calls| &&
            forall i | 0 <= i < |s.calls| && (s.calls[i].at.TrippingOrders? || s.calls[i].at.TrippingUsd?) ::
              t.calls[i].at == s.calls[i].at
              || t.calls[i].at == Done(OrdersExceeded) || t.calls[i].at == Done(UsdExceeded)
  {
    hide FetchAdd;
    if steps != [] { NoLateSuccess(s, steps[..|steps| - 1]); }
  }

  lemma {:induction false} SuccessesSplit(after: seq<Call>, before: seq<Call>)
    requires |after| == |before|
    requires forall i | 0 <= i < |after| :: Succeeded(after[i]) <= Succeeded(before[i]) + UnderWay(before[i])
    ensures Sum(after, Succeeded) <= Sum(before, Succeeded) + Sum(before, UnderWay)
  {
    if after != [] { SuccessesSplit(after[..|after| - 1], before[..|before| - 1]); }
  }

  // ---- one call at a time ----

  /** A call that nothing comes between. */
  function Checked(b: Breaker, cents: nat): (Breaker, Result) {
    if b.tripped then (b, AlreadyTripped)
    else
      var orders := FetchAdd(b.ordersFired, 1);
      if orders > b.maxOrders then (b.(ordersFired := orders, tripped := true), OrdersExceeded)
      else
        var usd := FetchAdd(b.usdCents, cents);
        if usd > b.maxUsdCents then (b.(ordersFired := orders, usdCents := usd, tripped := true), UsdExceeded)
        else (b.(ordersFired := orders, usdCents := usd), Ok)
  }

  /** Counters, limits and cents are u64. */
  predicate Fits(b: Breaker, cents: nat) {
    b.ordersFired < WORD && b.usdCents < WORD && b.maxOrders < WORD && b.maxUsdCents < WORD && cents < WORD
  }

  /** A total that is not past its limit, or that wraps around to one that is not. */
  predicate Passes(total: nat, limit: nat) {
    total <= limit || WORD <= total <= WORD + limit
  }

  /** What one call accepts, and when that takes the real totals past a limit: exactly when one
      of them wraps around. */
  lemma AcceptsExactly(b: Breaker, cents: nat)
    requires Fits(b, cents)
    ensures var ok, orders, usd := Checked(b, cents).1 == Ok, b.ordersFired + 1, b.usdCents + cents;
            && (ok <==> !b.tripped && Passes(orders, b.maxOrders) && Passes(usd, b.maxUsdCents))
            && (ok && (orders > b.maxOrders || usd > b.maxUsdCents) <==> ok && (orders >= WORD || usd >= WORD))
  {
    WrapsOnce(b.ordersFired + 1);
    WrapsOnce(b.usdCents + cents);
  }

  lemma WrapsOnce(total: nat)
    requires total < 2 * WORD
    ensures total % WORD == if total < WORD then total else total - WORD
  {
  }

  /** Which refusal, and what it leaves behind: a tripped breaker is not touched; otherwise the
      order is counted, its cents only when the orders were not exceeded, and a refusal trips. */
  lemma RefusesExactly(b: Breaker, cents: nat)
    requires Fits(b, cents)
    ensures var (r, verdict) := Checked(b, cents);
            var orders, usd := b.ordersFired + 1, b.usdCents + cents;
            && (verdict == AlreadyTripped <==> b.tripped) && (b.tripped ==> r == b)
            && (verdict == OrdersExceeded <==> !b.tripped && !Passes(orders, b.maxOrders))
            && (verdict == UsdExceeded <==>
                !b.tripped && Passes(orders, b.maxOrders) && !Passes(usd, b.maxUsdCents))
            && (!b.tripped ==>
                  && r.ordersFired == (if orders < WORD then orders else orders - WORD)
                  && r.usdCents == (if verdict == OrdersExceeded then b.usdCents
                                    else if usd < WORD then usd else usd - WORD)
                  && (r.tripped <==> verdict != Ok)
                  && r.maxOrders == b.maxOrders && r.maxUsdCents == b.maxUsdCents)
  {
    WrapsOnce(b.ordersFired + 1);
    WrapsOnce(b.usdCents + cents);
  }

  /** Dollars too large for a u64 saturate. Such an order is accepted on any total from one cent
      to one past the limit, and takes a cent off it. */
  lemma SaturatedOrderExactly(b: Breaker)
    requires Fits(b, U64_MAX) && b.maxUsdCents < U64_MAX
    ensures var (r, verdict) := Checked(b, U64_MAX);
            && (verdict == Ok <==>
                !b.tripped && Passes(b.ordersFired + 1, b.maxOrders) && 1 <= b.usdCents <= b.maxUsdCents + 1)
            && (verdict == Ok ==> r.usdCents == b.usdCents - 1)
  {
    AcceptsExactly(b, U64_MAX);
    WrapsOnce(b.usdCents + U64_MAX);
  }

  /** No breaker within its limits accepts an order of these cents past them exactly when the
      cents on top of the dollar limit cannot wrap around. */
  lemma NeverPastLimitsExactly(maxOrders: nat, maxUsdCents: nat, cents: nat)
    requires 1 <= maxOrders < U64_MAX && maxUsdCents < WORD && cents < WORD
    ensures (forall b: Breaker | b.maxOrders == maxOrders && b.maxUsdCents == maxUsdCents
                                 && b.ordersFired <= maxOrders && b.usdCents <= maxUsdCents
                                 && Checked(b, cents).1 == Ok ::
               b.ordersFired + 1 <= maxOrders && b.usdCents + cents <= maxUsdCents)
            <==> maxUsdCents + cents < WORD
  {
    if maxUsdCents + cents < WORD {
      forall b: Breaker | b.maxOrders == maxOrders && b.maxUsdCents == maxUsdCents
                          && b.ordersFired <= maxOrders && b.usdCents <= maxUsdCents && Checked(b, cents).1 == Ok
        ensures b.ordersFired + 1 <= maxOrders && b.usdCents + cents <= maxUsdCents
      {
        AcceptsExactly(b, cents);
      }
    } else {
      var b := Breaker(0, maxUsdCents, maxOrders, maxUsdCents, false);
      AcceptsExactly(b, cents);
      assert Checked(b, cents).1 == Ok;
    }
  }

  /** It is one of the interleavings: four steps of the same call in a row. */
  lemma UndisturbedCall(s: System, i: nat)
    requires i < |s.calls| && s.calls[i].at.Loading?
    ensures var (b, r) := Checked(s.breaker, s.calls[i].cents);
            Next(Next(Next(Next(s, Advance(i)), Advance(i)), Advance(i)), Advance(i)) ==
            System(b, s.calls[i := Call(s.calls[i].cents, Done(r))])
  {
    var one := Next(s, Advance(i));
    var two := Next(one, Advance(i));
    var three := Next(two, Advance(i));
    var four := Next(three, Advance(i));
    assert four.calls == s.calls[i := four.calls[i]];
  }

  // ---- how much may be asked for in all ----

  function FourSteps(i: nat): seq<Step> {
    [Advance(i), Advance(i), Advance(i), Advance(i)]
  }

  lemma {:induction false} RunAppend(s: System, a: seq<Step>, b: seq<Step>)
    ensures Run(s, a + b) == Run(Run(s, a), b)
  {
    if b == [] {
      assert a + b == a;
    } else {
      var n := |b| - 1;
      RunAppend(s, a, b[..n]);
      assert (a + b)[..|a + b| - 1] == a + b[..n];
    }
  }

  lemma CallRuns(s: System, i: nat)
    requires i < |s.calls| && s.calls[i].at.Loading?
    ensures var (b, r) := Checked(s.breaker, s.calls[i].cents);
            Run(s, FourSteps(i)) == System(b, s.calls[i := Call(s.calls[i].cents, Done(r))])
  {
    hide Checked, Next;
    UndisturbedCall(s, i);
    var a := Advance(i);
    RunOneMore(s, [], a);
    RunOneMore(s, [a], a);
    RunOneMore(s, [a, a], a);
    RunOneMore(s, [a, a, a], a);
    assert [] + [a] == [a] && [a] + [a] == [a, a] && [a, a] + [a] == [a, a, a] && [a, a, a] + [a] == FourSteps(i);
  }

  lemma RunOneMore(s: System, steps: seq<Step>, step: Step)
    ensures Run(s, steps + [step]) == Next(Run(s, steps), step)
    ensures Run(s, []) == s
  {
    assert (steps + [step])[..|steps|] == steps;
  }

  /** The limits hold under every interleaving of calls for these cents in all. */
  ghost predicate AlwaysWithin(b: Breaker, total: nat) {
    forall calls: seq<Call>, steps: seq<Step> | Asking(b, calls, total) ::
      && b.ordersFired + Successes(Run(System(b, calls), steps)) <= b.maxOrders
      && b.usdCents + SuccessCents(Run(System(b, calls), steps)) <= b.maxUsdCents
  }

  ghost predicate Asking(b: Breaker, calls: seq<Call>, total: nat) {
    && (forall i | 0 <= i < |calls| :: calls[i].at.Loading? && calls[i].cents < WORD)
    && Sum(calls, Cents) <= total && b.ordersFired + |calls| < WORD
  }

  /** For a breaker within its limits that is exactly when the cents on top of its total fit a
      u64. */
  lemma LimitsHoldExactly(b: Breaker, total: nat)
    requires !b.tripped && b.ordersFired + 2 <= b.maxOrders < WORD - 1
    requires b.usdCents <= b.maxUsdCents < WORD && 1 <= b.maxUsdCents
    ensures AlwaysWithin(b, total) <==> b.usdCents + total < WORD
  {
    if b.usdCents + total < WORD {
      forall calls: seq<Call>, steps: seq<Step> | Asking(b, calls, total)
        ensures b.ordersFired + Successes(Run(System(b, calls), steps)) <= b.maxOrders
        ensures b.usdCents + SuccessCents(Run(System(b, calls), steps)) <= b.maxUsdCents
      {
        LimitsHold(System(b, calls), steps);
      }
    } else if b.usdCents > 0 {
      OneCallWraps(b, total);
    } else {
      TwoCallsWrap(b, total);
    }
  }

  lemma OneCallWraps(b: Breaker, total: nat)
    requires !b.tripped && b.ordersFired + 1 <= b.maxOrders < WORD - 1
    requires 0 < b.usdCents <= b.maxUsdCents < WORD && b.usdCents + total >= WORD
    ensures !AlwaysWithin(b, total)
  {
    hide Run;
    var calls := [Call(WORD - b.usdCents, Loading)];
    var s := System(b, calls);
    CallRuns(s, 0);
    SumsOfOne(calls);
    SumsOfOne(Run(s, FourSteps(0)).calls);
    WrapsOnce(b.ordersFired + 1);
    assert Asking(b, calls, total);
    assert b.usdCents + SuccessCents(Run(s, FourSteps(0))) == WORD;
  }

  lemma SumsOfOne(calls: seq<Call>)
    requires |calls| == 1
    ensures forall weight: Call -> nat :: Sum(calls, weight) == weight(calls[0])
  {
    forall weight: Call -> nat ensures Sum(calls, weight) == weight(calls[0]) {
      assert Sum(calls[..0], weight) == 0;
    }
  }

  lemma SumsOfTwo(calls: seq<Call>)
    requires |calls| == 2
    ensures forall weight: Call -> nat :: Sum(calls, weight) == weight(calls[0]) + weight(calls[1])
  {
    forall weight: Call -> nat ensures Sum(calls, weight) == weight(calls[0]) + weight(calls[1]) {
      SumsOfOne(calls[..1]);
      assert calls[..1] == [calls[0]];
    }
  }

  lemma TwoCallsWrap(b: Breaker, total: nat)
    requires !b.tripped && b.ordersFired + 2 <= b.maxOrders < WORD - 1
    requires b.usdCents == 0 && 1 <= b.maxUsdCents < WORD && total >= WORD
    ensures !AlwaysWithin(b, total)
  {
    hide Run;
    var first, second := b.maxUsdCents, WORD - b.maxUsdCents;
    var calls := [Call(first, Loading), Call(second, Loading)];
    var s := System(b, calls);
    var t := Run(s, FourSteps(0));
    CallRuns(s, 0);
    WrapsOnce(b.ordersFired + 1);
    WrapsOnce(b.ordersFired + 2);
    assert t == System(b.(ordersFired := b.ordersFired + 1, usdCents := first), [Call(first, Done(Ok)), calls[1]]);
    CallRuns(t, 1);
    RunAppend(s, FourSteps(0), FourSteps(1));
    var end := Run(s, FourSteps(0) + FourSteps(1));
    assert end.calls == [Call(first, Done(Ok)), Call(second, Done(Ok))];
    SumsOfTwo(calls);
    SumsOfTwo(end.calls);
    assert Asking(b, calls, total);
    assert SuccessCents(end) == WORD;
  }

  class SharedBreaker {
    const maxOrders: nat
    const maxUsdCents: nat
    var ordersFired: nat
    var usdCents: nat
    var tripped: bool

    function View(): Breaker
      reads this
    {
      Breaker(ordersFired, usdCents, maxOrders, maxUsdCents, tripped)
    }

    constructor (maxOrders: nat, maxUsdCents: nat, initialOrders: nat, initialCents: nat)
      ensures View() == Breaker(initialOrders, initialCents, maxOrders, maxUsdCents, false)
    {
      this.maxOrders, this.maxUsdCents := maxOrders, maxUsdCents;
      ordersFired, usdCents, tripped := initialOrders, initialCents, false;
    }

    method CheckAndRecord(cents: nat) returns (r: Result)
      modifies this
      ensures (View(), r) == Checked(old(View()), cents)
    {
      if tripped { return AlreadyTripped; }
      ordersFired := FetchAdd(ordersFired, 1);
      if ordersFired > maxOrders {
        tripped := true;
        return OrdersExceeded;
      }
      usdCents := FetchAdd(usdCents, cents);
      if usdCents > maxUsdCents {
        tripped := true;
        return UsdExceeded;
      }
      r := Ok;
    }

    method TripNow()
      modifies this
      ensures View() == old(View()).(tripped := true)
    {
      tripped := true;
    }
  }
}
